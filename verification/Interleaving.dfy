/**
 Any number of source-control transactions running concurrently under snapshot reads.

 Every document carries the number of the commit that last wrote it.  A commit is allowed only if no
 document in the write set has been written since the snapshot; otherwise, and whenever the database
 reports a transient error, the callback starts over on a new snapshot, which may be of any store that was ever
 committed.  A callback that throws ends its transaction for good.
 */
module Interleaving {
  import opened Wrappers
  import opened SourceControl

  datatype Key =
    | MetaKey
    | ConfigKey(id: string)
    | PostingKey(id: string)
    | AuditKey(source: string, revision: int)

  function WrittenKeys(w: Writes): set<Key> {
    (if w.meta.Some? then {MetaKey} else {})
    + (set id | id in w.configs :: ConfigKey(id))
    + (set id | id in w.postings :: PostingKey(id))
    + (set k | k in w.audits :: AuditKey(k.0, k.1))
  }

  type Versions = map<Key, nat>

  function VersionOf(v: Versions, k: Key): nat { if k in v then v[k] else 0 }

  datatype Process =
    | Waiting(op: Op)
    | Running(op: Op, attempt: Attempt, versions: Versions)
    | Committed(op: Op)
    | Rejected(op: Op, error: Error, now: int, seen: nat)

  datatype Commit = Commit(op: Op, now: int)

  datatype Snapshot = Snapshot(store: Store, versions: Versions)

  /** `past` holds what was committed before each commit. */
  datatype System = System(
    store: Store,
    versions: Versions,
    past: seq<Snapshot>,
    processes: map<nat, Process>,
    history: seq<Commit>)

  /** `BeginTx` takes the snapshot, of the store after `at` commits or else the latest, and reads the clock;
      `Work` performs one database operation. */
  datatype Action =
    | Submit(pid: nat, op: Op)
    | BeginTx(pid: nat, now: int, at: nat)
    | Work(pid: nat)
    | CommitTx(pid: nat)
    | AbortTx(pid: nat)

  function Update(s: System, pid: nat, p: Process): System { s.(processes := s.processes[pid := p]) }

  function SnapshotAt(s: System, at: nat): Snapshot {
    if at < |s.past| then s.past[at] else Snapshot(s.store, s.versions)
  }

  function Begin(s: System, op: Op, now: int, at: nat): Process {
    Running(op, Start(SnapshotAt(s, at).store, now), SnapshotAt(s, at).versions)
  }

  predicate Conflicts(s: System, p: Process)
    requires p.Running?
  {
    exists k :: k in WrittenKeys(p.attempt.writes) && VersionOf(s.versions, k) != VersionOf(p.versions, k)
  }

  predicate Finished(p: Process)
    requires p.Running?
  {
    p.attempt.pc == Length(p.op)
  }

  function Install(s: System, pid: nat, p: Process): System
    requires p.Running?
  {
    var number := |s.history| + 1;
    System(
      Overlay(s.store, p.attempt.writes),
      s.versions + map k | k in WrittenKeys(p.attempt.writes) :: number,
      s.past + [Snapshot(s.store, s.versions)],
      s.processes[pid := Committed(p.op)],
      s.history + [Commit(p.op, p.attempt.now)])
  }

  function WorkOn(s: System, pid: nat, p: Process): System
    requires p.Running?
  {
    var a := Step(p.op, p.attempt);
    if a.error.Some? then Update(s, pid, Rejected(p.op, a.error.value, a.now, VersionOf(p.versions, MetaKey)))
    else Update(s, pid, p.(attempt := a))
  }

  /** One step of the system; an action that is not possible changes nothing. */
  function Act(s: System, action: Action): System {
    match action
    case Submit(pid, op) => if pid in s.processes then s else Update(s, pid, Waiting(op))
    case BeginTx(pid, now, at) =>
      if pid in s.processes && s.processes[pid].Waiting?
      then Update(s, pid, Begin(s, s.processes[pid].op, now, at)) else s
    case Work(pid) =>
      if pid in s.processes && s.processes[pid].Running? then WorkOn(s, pid, s.processes[pid]) else s
    case CommitTx(pid) =>
      if pid in s.processes && s.processes[pid].Running? && Finished(s.processes[pid])
      then if Conflicts(s, s.processes[pid]) then Update(s, pid, Waiting(s.processes[pid].op))
           else Install(s, pid, s.processes[pid])
      else s
    case AbortTx(pid) =>
      if pid in s.processes && s.processes[pid].Running? then Update(s, pid, Waiting(s.processes[pid].op)) else s
  }

  function Init(store: Store): System { System(store, map[], [], map[], []) }

  function Run(s: System, actions: seq<Action>): System {
    if actions == [] then s else Act(Run(s, actions[..|actions| - 1]), actions[|actions| - 1])
  }

  // ---- The serial execution ----

  function Apply(store: Store, c: Commit): Store {
    match Outcome(c.op, store, c.now) case Ok(effect) => effect.store case Err(_) => store
  }

  /** The committed transactions run one at a time, in commit order. */
  function Serial(store: Store, history: seq<Commit>): Store {
    if history == [] then store
    else Apply(Serial(store, history[..|history| - 1]), history[|history| - 1])
  }

  /** Each of them succeeds at its place in that order. */
  ghost predicate AllSucceed(store: Store, history: seq<Commit>) {
    forall i :: 0 <= i < |history| ==> Outcome(history[i].op, Serial(store, history[..i]), history[i].now).Ok?
  }

  // ---- The invariant ----

  /** A running attempt is its callback run part-way on the store as it was after `seen` commits,
      where `seen` is the version its snapshot has for the meta document. */
  ghost predicate RunningInv(init: Store, s: System, p: Process)
    requires p.Running?
  {
    var seen := VersionOf(p.versions, MetaKey);
    && seen <= |s.history|
    && (seen == |s.history| ==> p.versions == s.versions)
    && p.attempt.error == None && p.attempt.pc <= Length(p.op)
    && p.attempt == Steps(p.op, Start(Serial(init, s.history[..seen]), p.attempt.now), p.attempt.pc)
  }

  ghost predicate RejectedInv(init: Store, s: System, p: Process)
    requires p.Rejected?
  {
    p.seen <= |s.history| && Outcome(p.op, Serial(init, s.history[..p.seen]), p.now) == Err(p.error)
  }

  ghost predicate ProcessInv(init: Store, s: System, p: Process) {
    match p
    case Running(_, _, _) => RunningInv(init, s, p)
    case Rejected(_, _, _, _) => RejectedInv(init, s, p)
    case _ => true
  }

  /** Every snapshot that can still be taken is a serial state, and its meta document tells which. */
  ghost predicate PastInv(init: Store, s: System) {
    && |s.past| == |s.history|
    && forall i :: 0 <= i < |s.past| ==>
         s.past[i].store == Serial(init, s.history[..i]) && VersionOf(s.past[i].versions, MetaKey) == i
  }

  ghost predicate Inv(init: Store, s: System) {
    && s.store == Serial(init, s.history)
    && AllSucceed(init, s.history)
    && VersionOf(s.versions, MetaKey) == |s.history|
    && PastInv(init, s)
    && forall pid :: pid in s.processes ==> ProcessInv(init, s, s.processes[pid])
  }

  /** Prefixes of the history, and so serial states, survive a commit. */
  lemma HistoryGrows(init: Store, s: System, t: System, p: Process)
    requires ProcessInv(init, s, p)
    requires |s.history| < |t.history| && t.history[..|s.history|] == s.history
    ensures ProcessInv(init, t, p)
  {
    forall n | 0 <= n <= |s.history| ensures t.history[..n] == s.history[..n] {
      assert t.history[..n] == t.history[..|s.history|][..n];
    }
  }

  lemma WorkKeepsInv(init: Store, s: System, pid: nat)
    requires Inv(init, s) && pid in s.processes && s.processes[pid].Running?
    ensures Inv(init, WorkOn(s, pid, s.processes[pid]))
  {
    var p := s.processes[pid];
    var snapshot := Serial(init, s.history[..VersionOf(p.versions, MetaKey)]);
    var a := Step(p.op, p.attempt);
    CallbackStep(p.op, snapshot, p.attempt.now, p.attempt, a);
    if a.error.Some? {
      UpdateKeepsInv(init, s, pid, Rejected(p.op, a.error.value, a.now, VersionOf(p.versions, MetaKey)));
    } else {
      UpdateKeepsInv(init, s, pid, p.(attempt := a));
    }
  }

  /** Processes other than the one that acts are not concerned. */
  lemma UpdateKeepsInv(init: Store, s: System, pid: nat, p: Process)
    requires Inv(init, s) && ProcessInv(init, s, p)
    ensures Inv(init, Update(s, pid, p))
  {
    var t := Update(s, pid, p);
    forall q | q in t.processes ensures ProcessInv(init, t, t.processes[q]) {
      SameHistory(init, s, t, t.processes[q]);
    }
  }

  lemma SameHistory(init: Store, s: System, t: System, p: Process)
    requires ProcessInv(init, s, p) && t.history == s.history && t.versions == s.versions
    ensures ProcessInv(init, t, p)
  {}

  /** The heart of the protocol: every callback writes the meta document, so a commit without conflict
      means that nothing was committed since the snapshot. */
  lemma CommitSeesLatest(init: Store, s: System, p: Process)
    requires Inv(init, s) && p.Running? && RunningInv(init, s, p) && Finished(p) && !Conflicts(s, p)
    ensures VersionOf(p.versions, MetaKey) == |s.history|
    ensures p.attempt.writes.meta.Some?
    ensures Outcome(p.op, s.store, p.attempt.now).Ok?
    ensures Overlay(s.store, p.attempt.writes) == Outcome(p.op, s.store, p.attempt.now).value.store
  {
    var seen := VersionOf(p.versions, MetaKey);
    CallbackRealizes(p.op, Serial(init, s.history[..seen]), p.attempt.now);
    assert MetaKey in WrittenKeys(p.attempt.writes);
    assert s.history[..|s.history|] == s.history;
  }

  lemma PastGrows(init: Store, s: System, t: System)
    requires PastInv(init, s) && s.store == Serial(init, s.history) && VersionOf(s.versions, MetaKey) == |s.history|
    requires t.past == s.past + [Snapshot(s.store, s.versions)]
    requires |t.history| == |s.history| + 1 && t.history[..|s.history|] == s.history
    ensures PastInv(init, t)
  {
    forall i | 0 <= i < |t.past|
      ensures t.past[i].store == Serial(init, t.history[..i]) && VersionOf(t.past[i].versions, MetaKey) == i
    {
      assert t.history[..i] == t.history[..|s.history|][..i];
      if i == |s.history| { assert s.history[..i] == s.history; }
    }
  }

  lemma OneMoreSucceeds(init: Store, history: seq<Commit>, c: Commit)
    requires AllSucceed(init, history) && Outcome(c.op, Serial(init, history), c.now).Ok?
    ensures AllSucceed(init, history + [c])
    ensures Serial(init, history + [c]) == Outcome(c.op, Serial(init, history), c.now).value.store
  {
    var longer := history + [c];
    assert longer[..|history|] == history;
    forall i | 0 <= i < |longer| ensures Outcome(longer[i].op, Serial(init, longer[..i]), longer[i].now).Ok? {
      if i < |history| { assert longer[..i] == history[..i]; }
    }
  }

  lemma CommitKeepsInv(init: Store, s: System, pid: nat)
    requires Inv(init, s) && pid in s.processes && s.processes[pid].Running?
    requires Finished(s.processes[pid]) && !Conflicts(s, s.processes[pid])
    ensures Inv(init, Install(s, pid, s.processes[pid]))
  {
    var p := s.processes[pid];
    var t := Install(s, pid, p);
    CommitSeesLatest(init, s, p);
    assert MetaKey in WrittenKeys(p.attempt.writes);
    OneMoreSucceeds(init, s.history, Commit(p.op, p.attempt.now));
    assert t.history[..|s.history|] == s.history;
    PastGrows(init, s, t);
    forall q | q in t.processes ensures ProcessInv(init, t, t.processes[q]) {
      if q != pid { HistoryGrows(init, s, t, s.processes[q]); }
    }
  }

  lemma ActKeepsInv(init: Store, s: System, action: Action)
    requires Inv(init, s)
    ensures Inv(init, Act(s, action))
  {
    if action.Submit? {
      if action.pid !in s.processes { UpdateKeepsInv(init, s, action.pid, Waiting(action.op)); }
    } else if action.pid in s.processes {
      ProcessKeepsInv(init, s, action, action.pid);
    }
  }

  lemma ProcessKeepsInv(init: Store, s: System, action: Action, pid: nat)
    requires Inv(init, s) && !action.Submit? && action.pid == pid && pid in s.processes
    ensures Inv(init, Act(s, action))
  {
    var p := s.processes[pid];
    match p
    case Waiting(op) =>
      if action.BeginTx? {
        BeginKeepsInv(init, s, op, action.now, action.at);
        UpdateKeepsInv(init, s, pid, Begin(s, op, action.now, action.at));
      }
    case Running(op, _, _) =>
      UpdateKeepsInv(init, s, pid, Waiting(op));
      if action.Work? {
        WorkKeepsInv(init, s, pid);
      } else if action.CommitTx? && Finished(p) && !Conflicts(s, p) {
        CommitKeepsInv(init, s, pid);
      }
    case Committed(_) =>
    case Rejected(_, _, _, _) =>
  }

  /** A snapshot is the serial state after the commits it includes. */
  lemma BeginKeepsInv(init: Store, s: System, op: Op, now: int, at: nat)
    requires Inv(init, s)
    ensures ProcessInv(init, s, Begin(s, op, now, at))
  {
    assert s.history[..|s.history|] == s.history;
  }

  lemma {:induction false} RunKeepsInv(init: Store, actions: seq<Action>)
    ensures Inv(init, Run(Init(init), actions))
  {
    if actions != [] {
      RunKeepsInv(init, actions[..|actions| - 1]);
      ActKeepsInv(init, Run(Init(init), actions[..|actions| - 1]), actions[|actions| - 1]);
    }
  }

  // ---- Main results ----

  /** Every interleaving leaves the store that the committed transactions leave when they run one at
      a time in commit order, each of them succeeding there; and a transaction that was thrown out
      would have been thrown out, for the same reason, in that serial execution at its snapshot. */
  lemma Serializable(init: Store, actions: seq<Action>)
    ensures var s := Run(Init(init), actions);
            && s.store == Serial(init, s.history)
            && AllSucceed(init, s.history)
            && forall pid :: pid in s.processes && s.processes[pid].Rejected? ==>
                 var p := s.processes[pid];
                 p.seen <= |s.history| && Outcome(p.op, Serial(init, s.history[..p.seen]), p.now) == Err(p.error)
  {
    RunKeepsInv(init, actions);
  }

  /** A finished attempt commits exactly when no other transaction has committed since its snapshot:
      the fence admits no concurrent commit, and turns away no attempt that ran alone. */
  lemma CommitsIffAlone(init: Store, actions: seq<Action>, pid: nat)
    requires var s := Run(Init(init), actions);
             pid in s.processes && s.processes[pid].Running? && Finished(s.processes[pid])
    ensures var s := Run(Init(init), actions);
            var p := s.processes[pid];
            !Conflicts(s, p) <==> VersionOf(p.versions, MetaKey) == |s.history|
  {
    var s := Run(Init(init), actions);
    var p := s.processes[pid];
    RunKeepsInv(init, actions);
    assert ProcessInv(init, s, p);
    if !Conflicts(s, p) {
      CommitSeesLatest(init, s, p);
    }
  }

  // ---- Committed processes and commits ----

  function CommittedIn(s: System): set<nat> { set pid | pid in s.processes && s.processes[pid].Committed? }

  predicate CommitOf(s: System, pid: nat, i: nat)
    requires pid in s.processes
  {
    i < |s.history| && s.history[i].op == s.processes[pid].op
  }

  /** There are as many commits as committed processes, among them one of each one's operation. */
  ghost predicate Recorded(s: System) {
    && |CommittedIn(s)| == |s.history|
    && forall pid :: pid in CommittedIn(s) ==> exists i: nat :: CommitOf(s, pid, i)
  }

  lemma UpdateKeepsRecorded(s: System, pid: nat, p: Process)
    requires Recorded(s) && pid !in CommittedIn(s) && !p.Committed?
    ensures Recorded(Update(s, pid, p))
  {
    var t := Update(s, pid, p);
    assert CommittedIn(t) == CommittedIn(s);
    forall other | other in CommittedIn(t) ensures exists i: nat :: CommitOf(t, other, i) {
      var i: nat :| CommitOf(s, other, i);
      assert CommitOf(t, other, i);
    }
  }

  lemma InstallKeepsRecorded(s: System, pid: nat, p: Process)
    requires Recorded(s) && p.Running? && pid in s.processes && s.processes[pid] == p
    ensures Recorded(Install(s, pid, p))
  {
    var t := Install(s, pid, p);
    assert pid !in CommittedIn(s) && CommittedIn(t) == CommittedIn(s) + {pid};
    forall other | other in CommittedIn(t) ensures exists i: nat :: CommitOf(t, other, i) {
      if other == pid {
        assert CommitOf(t, pid, |s.history|);
      } else {
        var i: nat :| CommitOf(s, other, i);
        assert CommitOf(t, other, i);
      }
    }
  }

  lemma ActKeepsRecorded(s: System, action: Action)
    requires Recorded(s)
    ensures Recorded(Act(s, action))
  {
    if action.CommitTx? && action.pid in s.processes && s.processes[action.pid].Running?
       && Finished(s.processes[action.pid]) && !Conflicts(s, s.processes[action.pid])
    {
      InstallKeepsRecorded(s, action.pid, s.processes[action.pid]);
    } else if Act(s, action) != s {
      UpdateKeepsRecorded(s, action.pid, Act(s, action).processes[action.pid]);
    }
  }

  /** No process counts as committed without a commit of its own: in every run a retried or aborted attempt leaves
      none behind, and none is taken for a commit. */
  lemma {:induction false} CommitsAreRecorded(init: Store, actions: seq<Action>)
    ensures Recorded(Run(Init(init), actions))
  {
    if actions == [] {
      assert CommittedIn(Init(init)) == {};
    } else {
      CommitsAreRecorded(init, actions[..|actions| - 1]);
      ActKeepsRecorded(Run(Init(init), actions[..|actions| - 1]), actions[|actions| - 1]);
    }
  }
}
