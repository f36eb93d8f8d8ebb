/**
 Runs that take one turn for each item and may be stopped when a budget of actions is used up: if every turn
 can be resumed and items do not disturb each other, a stopped run started again is the run not stopped.
 */
module ResumableRuns {

  datatype Ending<+F> = Finished | Stopped | Failed(failure: F)

  /** How far a turn or a run got, and how many more actions it may take. */
  datatype Progress<+S, +F> = Progress(state: S, budget: nat, ending: Ending<F>)

  function Run<S, D, F>(turn: (S, D, nat) -> Progress<S, F>, s: S, items: seq<D>, budget: nat): Progress<S, F>
    decreases |items|
  {
    if items == [] then Progress(s, budget, Finished)
    else
      var p := turn(s, items[0], budget);
      if !p.ending.Finished? then p else Run(turn, p.state, items[1..], p.budget)
  }

  /** A stopped turn goes on from where it was stopped. */
  ghost predicate ResumesAt<S, D, F>(turn: (S, D, nat) -> Progress<S, F>, s: S, d: D, n: nat, m: nat) {
    turn(s, d, n).ending == Stopped ==> turn(turn(s, d, n).state, d, m) == turn(s, d, n + m)
  }

  /** A turn that was not stopped leaves the rest of a larger budget. */
  ghost predicate SparesAt<S, D, F>(turn: (S, D, nat) -> Progress<S, F>, s: S, d: D, n: nat, m: nat) {
    var p := turn(s, d, n);
    p.ending != Stopped ==> turn(s, d, n + m) == Progress(p.state, p.budget + m, p.ending)
  }

  /** A finished turn settles its item, and a settled item takes no action. */
  ghost predicate SettlesAt<S, D, F>(turn: (S, D, nat) -> Progress<S, F>, settled: (S, D) -> bool, s: S, d: D, n: nat) {
    && (turn(s, d, n).ending == Finished ==> settled(turn(s, d, n).state, d))
    && (settled(s, d) ==> turn(s, d, n) == Progress(s, n, Finished))
  }

  /** Another item's turn leaves it settled. */
  ghost predicate KeepsAt<S, D, F>(turn: (S, D, nat) -> Progress<S, F>, settled: (S, D) -> bool, apart: (D, D) -> bool,
                                   s: S, d: D, e: D, n: nat)
  {
    apart(d, e) && settled(s, d) ==> settled(turn(s, e, n).state, d)
  }

  ghost predicate Resumable<S(!new), D(!new), F>(turn: (S, D, nat) -> Progress<S, F>, settled: (S, D) -> bool,
                                                 apart: (D, D) -> bool)
  {
    && (forall s: S, d: D, n: nat, m: nat :: ResumesAt(turn, s, d, n, m) && SparesAt(turn, s, d, n, m))
    && (forall s: S, d: D, n: nat :: SettlesAt(turn, settled, s, d, n))
    && (forall s: S, d: D, e: D, n: nat :: KeepsAt(turn, settled, apart, s, d, e, n))
  }

  ghost predicate PairwiseApart<D>(apart: (D, D) -> bool, items: seq<D>) {
    forall i, j :: 0 <= i < j < |items| ==> apart(items[i], items[j])
  }

  /** A run that was not stopped is the same with a larger budget. */
  lemma {:induction false} SpareBudget<S(!new), D(!new), F>(
      turn: (S, D, nat) -> Progress<S, F>, settled: (S, D) -> bool, apart: (D, D) -> bool, s: S, items: seq<D>, n: nat,
      m: nat)
    requires Resumable(turn, settled, apart) && Run(turn, s, items, n).ending != Stopped
    ensures var p := Run(turn, s, items, n); Run(turn, s, items, n + m) == Progress(p.state, p.budget + m, p.ending)
    decreases |items|
  {
    if items != [] {
      var one := turn(s, items[0], n);
      assert SparesAt(turn, s, items[0], n, m);
      if one.ending == Finished { SpareBudget(turn, settled, apart, one.state, items[1..], one.budget, m); }
    }
  }

  lemma {:induction false} OthersKeep<S(!new), D(!new), F>(
      turn: (S, D, nat) -> Progress<S, F>, settled: (S, D) -> bool, apart: (D, D) -> bool, s: S, d: D, items: seq<D>,
      n: nat)
    requires Resumable(turn, settled, apart) && settled(s, d)
    requires forall i :: 0 <= i < |items| ==> apart(d, items[i])
    ensures settled(Run(turn, s, items, n).state, d)
    decreases |items|
  {
    if items != [] {
      var one := turn(s, items[0], n);
      assert KeepsAt(turn, settled, apart, s, d, items[0], n);
      if one.ending == Finished { OthersKeep(turn, settled, apart, one.state, d, items[1..], one.budget); }
    }
  }

  /** Running again over the state a stopped run left is the run that was not stopped. */
  lemma {:induction false} Resume<S(!new), D(!new), F>(
      turn: (S, D, nat) -> Progress<S, F>, settled: (S, D) -> bool, apart: (D, D) -> bool, s: S, items: seq<D>, n: nat,
      m: nat)
    requires Resumable(turn, settled, apart) && PairwiseApart(apart, items)
    requires Run(turn, s, items, n).ending == Stopped
    ensures Run(turn, Run(turn, s, items, n).state, items, m) == Run(turn, s, items, n + m)
    decreases |items|
  {
    var d, rest := items[0], items[1..];
    var one := turn(s, d, n);
    assert ResumesAt(turn, s, d, n, m) && SparesAt(turn, s, d, n, m);
    if one.ending == Finished {
      Resume(turn, settled, apart, one.state, rest, one.budget, m);
      var mid := Run(turn, one.state, rest, one.budget).state;
      assert SettlesAt(turn, settled, s, d, n);
      OthersKeep(turn, settled, apart, one.state, d, rest, one.budget);
      assert SettlesAt(turn, settled, mid, d, m);
    }
  }
}
