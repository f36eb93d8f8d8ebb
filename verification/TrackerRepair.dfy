/**
 The tracker repair: unconfirmed applications that a system sweep had marked as ghosted are paged, grouped by
 user, and corrected under the fence that refuses writes for accounts being deleted.
 */
module TrackerRepair {
  import opened Wrappers
  import opened Seqs
  import opened KeysetScan

  const BATCH_SIZE := 100

  datatype HistoryEntry = HistoryEntry(status: string, at: int, source: string)

  /** `appliedOn` is `None` when the field holds no date. */
  datatype Application = Application(
    userId: nat,
    updatedAt: int,
    status: string,
    appliedOn: Option<int>,
    history: seq<HistoryEntry>,
    ghostSuggestedAt: Option<int>)

  predicate SystemEntry(e: HistoryEntry, status: string) { e.status == status && e.source == "system" }

  /** Ghosted without a date of application, and the last two audit entries are the system's click and
      the system's ghosting. */
  predicate InvalidGhost(a: Application) {
    && a.status == "ghosted"
    && a.appliedOn.None?
    && |a.history| >= 2
    && SystemEntry(a.history[|a.history| - 1], "ghosted")
    && SystemEntry(a.history[|a.history| - 2], "apply_clicked")
  }

  function Correct(a: Application, now: int): Application {
    a.(status := "apply_clicked", ghostSuggestedAt := None, updatedAt := now,
       history := a.history + [HistoryEntry("apply_clicked", now, "system")])
  }

  /** What the run does to a selected row: accounts that are not active keep theirs. */
  function CorrectIfActive(a: Application, active: nat -> bool, now: int): Application {
    if active(a.userId) then Correct(a, now) else a
  }

  // ---- groupByUser ----

  datatype Group = Group(userId: nat, rows: seq<Keyed<Application>>)

  function OfUser(rows: seq<Keyed<Application>>, userId: nat): seq<Keyed<Application>> {
    if rows == [] then []
    else OfUser(rows[..|rows| - 1], userId)
         + if rows[|rows| - 1].doc.userId == userId then [rows[|rows| - 1]] else []
  }

  /** One group for each user among the candidates, holding that user's candidates in order. */
  ghost predicate Groups(rows: seq<Keyed<Application>>, groups: seq<Group>) {
    && UsersDistinct(groups)
    && (forall g :: 0 <= g < |groups| ==> groups[g].rows == OfUser(rows, groups[g].userId) && groups[g].rows != [])
    && (forall i :: 0 <= i < |rows| ==> HasGroup(groups, rows[i].doc.userId))
  }

  ghost predicate UsersDistinct(groups: seq<Group>) {
    forall g, h :: 0 <= g < h < |groups| ==> groups[g].userId != groups[h].userId
  }

  ghost predicate HasGroup(groups: seq<Group>, userId: nat) {
    exists g :: 0 <= g < |groups| && groups[g].userId == userId
  }

  method FindGroup(groups: seq<Group>, userId: nat) returns (at: Option<nat>)
    ensures at.Some? ==> at.value < |groups| && groups[at.value].userId == userId
    ensures at.None? ==> forall g :: 0 <= g < |groups| ==> groups[g].userId != userId
  {
    var g := 0;
    while g < |groups|
      invariant 0 <= g <= |groups|
      invariant forall h :: 0 <= h < g ==> groups[h].userId != userId
    {
      if groups[g].userId == userId { return Some(g); }
      g := g + 1;
    }
    return None;
  }

  lemma {:induction false} NobodysRows(rows: seq<Keyed<Application>>, userId: nat)
    requires forall i :: 0 <= i < |rows| ==> rows[i].doc.userId != userId
    ensures OfUser(rows, userId) == []
  {
    if rows != [] { NobodysRows(rows[..|rows| - 1], userId); }
  }

  lemma {:induction false} OfUserMembers(rows: seq<Keyed<Application>>, userId: nat, row: Keyed<Application>)
    ensures row in OfUser(rows, userId) <==> row in rows && row.doc.userId == userId
  {
    if rows != [] {
      OfUserMembers(rows[..|rows| - 1], userId, row);
      assert rows == rows[..|rows| - 1] + [rows[|rows| - 1]];
    }
  }

  /** The groups with one more candidate: in its user's group, or in a new one behind the others. */
  function Grouped(groups: seq<Group>, at: Option<nat>, candidate: Keyed<Application>): seq<Group>
    requires at.Some? ==> at.value < |groups|
  {
    match at
    case Some(g) => groups[g := Group(candidate.doc.userId, groups[g].rows + [candidate])]
    case None => groups + [Group(candidate.doc.userId, [candidate])]
  }

  lemma OfUserSnoc(rows: seq<Keyed<Application>>, candidate: Keyed<Application>, userId: nat)
    ensures OfUser(rows + [candidate], userId) ==
              OfUser(rows, userId) + if candidate.doc.userId == userId then [candidate] else []
  {
    assert (rows + [candidate])[..|rows|] == rows;
  }

  /** `at` is where the groups have the user, if they have. */
  ghost predicate Located(groups: seq<Group>, at: Option<nat>, userId: nat) {
    match at
    case Some(g) => g < |groups| && groups[g].userId == userId
    case None => forall g :: 0 <= g < |groups| ==> groups[g].userId != userId
  }

  lemma GroupedUsers(groups: seq<Group>, at: Option<nat>, candidate: Keyed<Application>)
    requires Located(groups, at, candidate.doc.userId) && UsersDistinct(groups)
    ensures UsersDistinct(Grouped(groups, at, candidate))
    ensures HasGroup(Grouped(groups, at, candidate), candidate.doc.userId)
  {
    var after, g := Grouped(groups, at, candidate), if at.Some? then at.value else |groups|;
    assert after[g].userId == candidate.doc.userId;
  }

  lemma GroupedKeeps(groups: seq<Group>, at: Option<nat>, candidate: Keyed<Application>, userId: nat)
    requires Located(groups, at, candidate.doc.userId) && HasGroup(groups, userId)
    ensures HasGroup(Grouped(groups, at, candidate), userId)
  {
    var g :| 0 <= g < |groups| && groups[g].userId == userId;
    assert Grouped(groups, at, candidate)[g].userId == userId;
  }

  lemma GroupedRows(rows: seq<Keyed<Application>>, groups: seq<Group>, at: Option<nat>, candidate: Keyed<Application>,
                    g: nat)
    requires Groups(rows, groups) && Located(groups, at, candidate.doc.userId) && g < |Grouped(groups, at, candidate)|
    ensures var group := Grouped(groups, at, candidate)[g];
            group.rows == OfUser(rows + [candidate], group.userId) && group.rows != []
  {
    OfUserSnoc(rows, candidate, Grouped(groups, at, candidate)[g].userId);
    if g == |groups| { NewUser(rows, groups, candidate); }
  }

  lemma GroupsSnoc(rows: seq<Keyed<Application>>, groups: seq<Group>, at: Option<nat>, candidate: Keyed<Application>)
    requires Groups(rows, groups) && Located(groups, at, candidate.doc.userId)
    ensures Groups(rows + [candidate], Grouped(groups, at, candidate))
  {
    var after, more := Grouped(groups, at, candidate), rows + [candidate];
    GroupedUsers(groups, at, candidate);
    forall g | 0 <= g < |after| ensures after[g].rows == OfUser(more, after[g].userId) && after[g].rows != [] {
      GroupedRows(rows, groups, at, candidate, g);
    }
    forall k | 0 <= k < |more| ensures HasGroup(after, more[k].doc.userId) {
      if k < |rows| { GroupedKeeps(groups, at, candidate, rows[k].doc.userId); }
    }
  }

  lemma NewUser(rows: seq<Keyed<Application>>, groups: seq<Group>, candidate: Keyed<Application>)
    requires Groups(rows, groups) && forall g :: 0 <= g < |groups| ==> groups[g].userId != candidate.doc.userId
    ensures OfUser(rows, candidate.doc.userId) == []
  {
    NobodysRows(rows, candidate.doc.userId);
  }

  method GroupByUser(candidates: seq<Keyed<Application>>) returns (groups: seq<Group>)
    ensures Groups(candidates, groups)
  {
    groups := [];
    var i := 0;
    while i < |candidates|
      invariant 0 <= i <= |candidates| && Groups(candidates[..i], groups)
    {
      var at := FindGroup(groups, candidates[i].doc.userId);
      GroupsSnoc(candidates[..i], groups, at, candidates[i]);
      TakeSnoc(candidates, i);
      groups := Grouped(groups, at, candidates[i]);
      i := i + 1;
    }
    TakeAll(candidates);
  }

  // ---- The writes of one page ----

  ghost predicate Served(groups: seq<Group>, g: nat, userId: nat) {
    exists h :: 0 <= h < g && h < |groups| && groups[h].userId == userId
  }

  /** After the first `g` groups: the page's rows of their users are done, all else is as it was. */
  ghost predicate PartlyWritten(start: seq<Keyed<Application>>, rows: seq<Keyed<Application>>,
                                page: seq<Keyed<Application>>,
                                groups: seq<Group>, g: nat, active: nat -> bool, now: int) {
    && |rows| == |start|
    && forall i :: 0 <= i < |start| ==>
         rows[i] == if start[i] in page && Served(groups, g, start[i].doc.userId)
                    then Keyed(start[i].id, CorrectIfActive(start[i].doc, active, now))
                    else start[i]
  }

  lemma GroupWrites(start: seq<Keyed<Application>>, rows: seq<Keyed<Application>>, page: seq<Keyed<Application>>,
                    groups: seq<Group>, g: nat, active: nat -> bool, now: int, write: Application -> Application)
    requires Sorted(start) && (forall r :: r in page ==> r in start) && Groups(page, groups) && g < |groups|
    requires PartlyWritten(start, rows, page, groups, g, active, now)
    requires forall a :: write(a) == Correct(a, now)
    ensures active(groups[g].userId) ==>
              PartlyWritten(start, WritePage(rows, groups[g].rows, write), page, groups, g + 1, active, now)
    ensures !active(groups[g].userId) ==> PartlyWritten(start, rows, page, groups, g + 1, active, now)
  {
    var group := groups[g];
    forall i | 0 <= i < |start|
      ensures Served(groups, g + 1, start[i].doc.userId) <==>
                Served(groups, g, start[i].doc.userId) || start[i].doc.userId == group.userId
      ensures rows[i] in group.rows <==> start[i] in page && start[i].doc.userId == group.userId
    {
      OfUserMembers(page, group.userId, rows[i]);
      OfUserMembers(page, group.userId, start[i]);
      if rows[i] in group.rows {
        assert rows[i] in start;
        var j :| 0 <= j < |start| && start[j] == rows[i];
        assert j == i;
      }
      if start[i].doc.userId == group.userId { assert groups[g].userId == start[i].doc.userId; }
    }
  }

  /** A page is in the collection it was read from. */
  lemma {:induction false} PageInRows(rows: seq<Keyed<Application>>, p: Application -> bool, cursor: Option<nat>,
                                      limit: nat)
    ensures forall r :: r in Page(rows, p, cursor, limit) ==> r in rows
    decreases |rows|
  {
    if rows != [] && limit > 0 {
      PageInRows(rows[1..], p, cursor, if Behind(rows[0].id, cursor) && p(rows[0].doc) then limit - 1 else limit);
    }
  }

  lemma AllServed(start: seq<Keyed<Application>>, rows: seq<Keyed<Application>>, page: seq<Keyed<Application>>,
                  groups: seq<Group>, active: nat -> bool, now: int, f: Application -> Application)
    requires Groups(page, groups) && PartlyWritten(start, rows, page, groups, |groups|, active, now)
    requires forall a :: f(a) == CorrectIfActive(a, active, now)
    ensures rows == WritePage(start, page, f)
  {
    forall i | 0 <= i < |start| && start[i] in page ensures Served(groups, |groups|, start[i].doc.userId) {
      var j :| 0 <= j < |page| && page[j] == start[i];
      assert page[j].doc.userId == start[i].doc.userId;
    }
  }

  /** Every selected row of an active account is corrected, and nothing else changes. */
  ghost predicate Corrected(was: seq<Keyed<Application>>, rows: seq<Keyed<Application>>, active: nat -> bool, now: int)
  {
    && |rows| == |was|
    && forall i :: 0 <= i < |rows| ==>
         rows[i] == Keyed(was[i].id,
                          if InvalidGhost(was[i].doc) then CorrectIfActive(was[i].doc, active, now) else was[i].doc)
  }

  /** Ghosted by the system directly after an apply click of the system, with no application date. */
  predicate Mistaken(a: Application) {
    var n := |a.history|;
    && a.status == "ghosted" && a.appliedOn == None && n > 1
    && a.history[n - 1].status == "ghosted" && a.history[n - 1].source == "system"
    && a.history[n - 2].status == "apply_clicked" && a.history[n - 2].source == "system"
  }

  /** Back at the apply click, with one more entry that says so, and otherwise as it was. */
  predicate Undone(was: Application, now: Application, at: int) {
    && now.status == "apply_clicked" && now.updatedAt == at && now.ghostSuggestedAt == None
    && |now.history| == |was.history| + 1 && was.history <= now.history
    && now.history[|was.history|] == HistoryEntry("apply_clicked", at, "system")
    && now.userId == was.userId && now.appliedOn == was.appliedOn
  }

  /** The mistaken rows of active accounts are undone, and no other row changes. */
  ghost predicate UndoneExactly(was: seq<Keyed<Application>>, rows: seq<Keyed<Application>>, active: nat -> bool,
                                now: int)
  {
    && |rows| == |was|
    && forall i :: 0 <= i < |was| ==>
         && rows[i].id == was[i].id
         && if Mistaken(was[i].doc) && active(was[i].doc.userId) then Undone(was[i].doc, rows[i].doc, now)
            else rows[i] == was[i]
  }

  ghost predicate NoneMistaken(rows: seq<Keyed<Application>>) { forall r :: r in rows ==> !Mistaken(r.doc) }

  ghost predicate MistakenAreActive(rows: seq<Keyed<Application>>, active: nat -> bool) {
    forall r :: r in rows && Mistaken(r.doc) ==> active(r.doc.userId)
  }

  lemma GhostsAreMistaken(rows: seq<Keyed<Application>>, active: nat -> bool)
    ensures NoGhosts(rows) <==> NoneMistaken(rows)
    ensures GhostsAreActive(rows, active) <==> MistakenAreActive(rows, active)
  {
    assert forall r :: r in rows ==> (InvalidGhost(r.doc) <==> Mistaken(r.doc));
  }

  lemma CorrectedIsUndone(was: seq<Keyed<Application>>, rows: seq<Keyed<Application>>, active: nat -> bool, now: int)
    requires Corrected(was, rows, active, now)
    ensures UndoneExactly(was, rows, active, now)
  {
    forall i | 0 <= i < |was|
      ensures rows[i].id == was[i].id &&
              if Mistaken(was[i].doc) && active(was[i].doc.userId) then Undone(was[i].doc, rows[i].doc, now)
              else rows[i] == was[i]
    {
      assert InvalidGhost(was[i].doc) <==> Mistaken(was[i].doc);
    }
  }

  ghost predicate NoGhosts(rows: seq<Keyed<Application>>) { forall r :: r in rows ==> !InvalidGhost(r.doc) }

  ghost predicate GhostsAreActive(rows: seq<Keyed<Application>>, active: nat -> bool) {
    forall r :: r in rows && InvalidGhost(r.doc) ==> active(r.doc.userId)
  }

  lemma RewrittenIsCorrected(was: seq<Keyed<Application>>, active: nat -> bool, now: int, f: Application -> Application)
    requires forall a :: f(a) == CorrectIfActive(a, active, now)
    ensures Corrected(was, Rewritten(was, InvalidGhost, f), active, now)
  {}

  datatype Mode = DryRun | Check | Apply

  datatype Outcome = CheckPassed | CheckFailed | NothingWritten | Repaired | GhostsRemain

  class Tracker {
    var rows: seq<Keyed<Application>>

    /** Writes one page, user by user. */
    method WriteByUser(page: seq<Keyed<Application>>, active: nat -> bool, now: int,
                       ghost f: Application -> Application)
      requires Sorted(rows) && forall r :: r in page ==> r in rows
      requires forall a :: f(a) == CorrectIfActive(a, active, now)
      modifies this
      ensures rows == WritePage(old(rows), page, f)
    {
      ghost var start := rows;
      var groups := GroupByUser(page);
      var g := 0;
      while g < |groups|
        invariant 0 <= g <= |groups|
        invariant PartlyWritten(start, rows, page, groups, g, active, now)
      {
        var write := (a: Application) => Correct(a, now);
        GroupWrites(start, rows, page, groups, g, active, now, write);
        if active(groups[g].userId) {
          rows := WritePage(rows, groups[g].rows, write);
        }
        g := g + 1;
      }
      AllServed(start, rows, page, groups, active, now, f);
    }

    /** One page: read behind the cursor, and written user by user. */
    method RepairPage(active: nat -> bool, now: int, cursor: Option<nat>, ghost f: Application -> Application,
                      ghost was: seq<Keyed<Application>>, ghost visited: seq<Keyed<Application>>, ghost k: nat)
      returns (page: seq<Keyed<Application>>, ghost next: nat)
      requires Sorted(was) && At(was, rows, InvalidGhost, f, cursor, visited, k)
      requires forall a :: f(a) == CorrectIfActive(a, active, now)
      modifies this
      ensures At(was, rows, InvalidGhost, f, CursorAfter(page, cursor), visited + page, next)
      ensures if page == [] then next == |was| else k < next <= |was|
    {
      page := Page(rows, InvalidGhost, cursor, BATCH_SIZE);
      AtCursor(was, rows, InvalidGhost, f, cursor, visited, k, BATCH_SIZE);
      PageInRows(rows, InvalidGhost, cursor, BATCH_SIZE);
      next := Advance(was, rows, InvalidGhost, f, cursor, visited, k, BATCH_SIZE);
      WriteByUser(page, active, now, f);
    }

    /** The paged loop, ended by an empty page: every selected row of an active account is corrected once. */
    method RepairPages(active: nat -> bool, now: int)
      requires Sorted(rows)
      modifies this
      ensures Corrected(old(rows), rows, active, now)
    {
      ghost var f := (a: Application) => CorrectIfActive(a, active, now);
      ghost var was, visited, k := rows, [], 0;
      var cursor: Option<nat> := None;
      while true
        invariant k <= |was| && At(was, rows, InvalidGhost, f, cursor, visited, k)
        decreases |was| - k
      {
        var candidates;
        candidates, k := RepairPage(active, now, cursor, f, was, visited, k);
        visited := visited + candidates;
        if |candidates| == 0 { break; }
        cursor := Some(candidates[|candidates| - 1].id);
      }
      AtEnd(was, rows, InvalidGhost, f, cursor, visited);
      RewrittenIsCorrected(was, active, now, f);
    }

    /** An apply passes exactly when no selected row belongs to an account that refuses writes; those rows
        stay as they were, every other selected row is corrected, and no other row changes. */
    method Run(mode: Mode, active: nat -> bool, now: int) returns (outcome: Outcome)
      requires Sorted(rows)
      modifies this
      ensures mode == Check ==>
                outcome == if NoneMistaken(old(rows)) then CheckPassed else CheckFailed
      ensures mode == DryRun ==> outcome == NothingWritten
      ensures mode == Apply ==>
                outcome == if MistakenAreActive(old(rows), active) then Repaired else GhostsRemain
      ensures mode != Apply ==> rows == old(rows)
      ensures mode == Apply ==> UndoneExactly(old(rows), rows, active, now)
    {
      var before := |Selected(rows, InvalidGhost)|;
      NoneSelectedIff(rows);
      GhostsAreMistaken(rows, active);
      match mode
      case Check => outcome := if before > 0 then CheckFailed else CheckPassed;
      case DryRun => outcome := NothingWritten;
      case Apply =>
        RepairPages(active, now);
        CorrectedIsUndone(old(rows), rows, active, now);
        RemainingAreInactive(old(rows), rows, active, now);
        var remaining := |Selected(rows, InvalidGhost)|;
        NoneSelectedIff(rows);
        outcome := if remaining > 0 then GhostsRemain else Repaired;
    }
  }

  lemma NoneSelectedIff(rows: seq<Keyed<Application>>)
    ensures |Selected(rows, InvalidGhost)| == 0 <==> NoGhosts(rows)
  {
    var selected := Selected(rows, InvalidGhost);
    forall r ensures r in selected <==> r in rows && InvalidGhost(r.doc) { SelectedMembers(rows, InvalidGhost, r); }
    if |selected| > 0 { assert selected[0] in selected; }
  }

  /** A corrected row is selected no more. */
  lemma RemainingAreInactive(was: seq<Keyed<Application>>, rows: seq<Keyed<Application>>, active: nat -> bool, now: int)
    requires Corrected(was, rows, active, now)
    ensures NoGhosts(rows) <==> GhostsAreActive(was, active)
  {
    forall i | 0 <= i < |rows|
      ensures InvalidGhost(rows[i].doc) <==> InvalidGhost(was[i].doc) && !active(was[i].doc.userId) {
    }
    if NoGhosts(rows) {
      forall r | r in was && InvalidGhost(r.doc) ensures active(r.doc.userId) {
        var i :| 0 <= i < |was| && was[i] == r;
        assert rows[i] in rows;
      }
    } else {
      var r :| r in rows && InvalidGhost(r.doc);
      var i :| 0 <= i < |rows| && rows[i] == r;
      assert was[i] in was;
    }
  }
}
