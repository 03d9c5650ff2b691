/** What the cleaner guarantees over whole runs: conservation, the grace period and progress. */
module CleanerRuns {
  import opened Sums
  import opened Cleaner

  predicate StepAt(states: seq<State>, steps: seq<Step>, k: int) {
    0 <= k < |steps| && k + 1 < |states| && Stepped(states[k], steps[k], states[k + 1])
  }

  ghost predicate IsRun(states: seq<State>, steps: seq<Step>) {
    && |states| == |steps| + 1 && Initial(states[0])
    && forall k :: 0 <= k < |steps| ==> StepAt(states, steps, k)
  }

  lemma {:induction false} RunInv(states: seq<State>, steps: seq<Step>, n: nat)
    requires IsRun(states, steps) && n <= |steps|
    ensures Inv(states[n]) && |states[n].pcs| == |states[0].pcs|
  {
    if n == 0 {
      InitialInv(states[0]);
    } else {
      RunInv(states, steps, n - 1);
      assert StepAt(states, steps, n - 1);
      InvStep(states[n - 1], steps[n - 1], states[n]);
    }
  }

  /** The lists only move forward. */
  predicate Onward(s: State, s': State) {
    && |s.pcs| == |s'.pcs|
    && |s.pushed| <= |s'.pushed| && s.stamps <= s'.stamps && |s.dropped| <= |s'.dropped|
    && |s.dropped| + |s.sh.free| <= |s'.dropped| + |s'.sh.free|
    && s.sweeps <= s'.sweeps
    && (s.sweeps < s'.sweeps ==>
          |s.dropped| + |s.sh.free| <= |s'.dropped| && |s.pushed| <= |s'.dropped| + |s'.sh.free|)
  }

  lemma StepOnward(s: State, step: Step, s': State)
    requires Inv(s) && Stepped(s, step, s')
    ensures Onward(s, s') && s'.sweeps <= s.sweeps + 1
  {
  }

  lemma OnwardTransitive(a: State, b: State, c: State)
    requires Onward(a, b) && Onward(b, c)
    ensures Onward(a, c)
  {
  }

  lemma {:induction false} RunOnward(states: seq<State>, steps: seq<Step>, i: nat, n: nat)
    requires IsRun(states, steps) && i <= n <= |steps|
    ensures Onward(states[i], states[n])
  {
    if i < n {
      RunOnward(states, steps, i, n - 1);
      RunInv(states, steps, n - 1);
      assert StepAt(states, steps, n - 1);
      StepOnward(states[n - 1], steps[n - 1], states[n]);
      OnwardTransitive(states[i], states[n - 1], states[n]);
    }
  }

  /** No thread is in the branch that takes an increment back. */
  predicate NoneReverts(s: State) {
    forall t :: 0 <= t < |s.pcs| ==> !s.pcs[t].Bounced? && !s.pcs[t].Reverting?
  }

  /** In every reachable state each pushed holder is in exactly one of dropped, free_ and
      free_candidates_, in push order; the count is exact, and that branch is not entered. */
  lemma CleanerConserves(states: seq<State>, steps: seq<Step>, n: nat)
    requires IsRun(states, steps) && n <= |steps|
    ensures var s := states[n];
      && s.pushed == s.dropped + s.sh.free + s.sh.candidates
      && Sized(s) && s.sh.unreleased == Total(Weights(s.sh.bits, s.pcs)) && NoneReverts(s)
  {
    RunInv(states, steps, n);
    var s := states[n];
    forall t | 0 <= t < |s.pcs|
      ensures !s.pcs[t].Bounced? && !s.pcs[t].Reverting?
    {
      assert ThreadOk(s.sh.bits[t], s.pcs[t], s.begun[t], s.done[t], s.epoch[t]);
    }
  }

  lemma StepCalls(s: State, step: Step, s': State, t: nat)
    requires Inv(s) && Stepped(s, step, s') && t < |s.pcs|
    ensures Sized(s') && |s'.pcs| == |s.pcs|
    ensures s.begun[t] <= s'.begun[t] <= s.begun[t] + 1
    ensures s.done[t] <= s'.done[t] <= s.done[t] + 1
  {
  }

  /** Release calls are numbered per thread; the two counters only grow, one at a time. */
  lemma RunCalls(states: seq<State>, steps: seq<Step>, k: nat, t: nat)
    requires IsRun(states, steps) && k < |steps| && t < |states[0].pcs|
    ensures Sized(states[k]) && Sized(states[k + 1])
    ensures |states[k].pcs| == |states[k + 1].pcs| == |states[0].pcs|
    ensures states[k].begun[t] <= states[k + 1].begun[t] <= states[k].begun[t] + 1
    ensures states[k].done[t] <= states[k + 1].done[t] <= states[k].done[t] + 1
  {
    RunInv(states, steps, k);
    assert StepAt(states, steps, k);
    StepCalls(states[k], steps[k], states[k + 1], t);
  }

  lemma {:induction false} CallsGrow(states: seq<State>, steps: seq<Step>, i: nat, n: nat, t: nat)
    requires IsRun(states, steps) && i <= n <= |steps| && t < |states[0].pcs|
    ensures Sized(states[i]) && Sized(states[n]) && |states[i].pcs| == |states[n].pcs| == |states[0].pcs|
    ensures states[i].begun[t] <= states[n].begun[t] && states[i].done[t] <= states[n].done[t]
    ensures n == i + 1 ==>
      states[n].begun[t] <= states[i].begun[t] + 1 && states[n].done[t] <= states[i].done[t] + 1
  {
    if i < n {
      CallsGrow(states, steps, i, n - 1, t);
      RunCalls(states, steps, n - 1, t);
    } else {
      RunInv(states, steps, i);
    }
  }

  /** The step at which thread t begins, and the one at which it completes, its call number c. */
  lemma {:induction false} CallBegins(states: seq<State>, steps: seq<Step>, i: nat, n: nat, t: nat, c: nat)
      returns (a: nat)
    requires IsRun(states, steps) && i <= n <= |steps| && t < |states[0].pcs|
    requires forall j :: 0 <= j <= |steps| ==> |states[j].begun| == |states[0].pcs|
    requires states[i].begun[t] <= c < states[n].begun[t]
    ensures i <= a < n && states[a].begun[t] == c && states[a + 1].begun[t] == c + 1
  {
    if states[n - 1].begun[t] > c {
      a := CallBegins(states, steps, i, n - 1, t, c);
    } else {
      a := n - 1;
      CallsGrow(states, steps, n - 1, n, t);
    }
  }

  lemma {:induction false} CallCompletes(states: seq<State>, steps: seq<Step>, i: nat, n: nat, t: nat, c: nat)
      returns (b: nat)
    requires IsRun(states, steps) && i <= n <= |steps| && t < |states[0].pcs|
    requires forall j :: 0 <= j <= |steps| ==> |states[j].done| == |states[0].pcs|
    requires states[i].done[t] <= c < states[n].done[t]
    ensures i <= b < n && states[b].done[t] == c && states[b + 1].done[t] == c + 1
  {
    if states[n - 1].done[t] > c {
      b := CallCompletes(states, steps, i, n - 1, t, c);
    } else {
      b := n - 1;
      CallsGrow(states, steps, n - 1, n, t);
    }
  }

  /** The call after the one thread t was in, or had last completed, at the push is complete when
      the holder has been dropped. */
  lemma DroppedIsDone(states: seq<State>, steps: seq<Step>, i: nat, n: nat, t: nat)
    requires IsRun(states, steps) && i < n <= |steps| && t < |states[0].pcs|
    requires steps[i].Push? && |states[i].pushed| < |states[n].dropped|
    ensures |states[i].begun| == |states[i].done| == |states[n].begun| == |states[n].done| == |states[0].pcs|
    ensures states[i].done[t] <= states[i].begun[t] < states[n].done[t] <= states[n].begun[t]
  {
    var k := |states[i].pushed|;
    RunInv(states, steps, i);
    RunInv(states, steps, n);
    assert StepAt(states, steps, i);
    RunOnward(states, steps, i + 1, n);
    assert states[i + 1].stamps[k] == states[n].stamps[k];
    assert states[n].stamps[k][t] < states[n].done[t];
    assert ThreadOk(states[i].sh.bits[t], states[i].pcs[t], states[i].begun[t], states[i].done[t], states[i].epoch[t]);
    assert ThreadOk(states[n].sh.bits[t], states[n].pcs[t], states[n].begun[t], states[n].done[t], states[n].epoch[t]);
  }

  /** What a thread has begun and completed at a state: no call, or one, is open. */
  lemma OneCallOpen(states: seq<State>, steps: seq<Step>, n: nat, t: nat)
    requires IsRun(states, steps) && n <= |steps| && t < |states[0].pcs|
    ensures Sized(states[n]) && |states[n].pcs| == |states[0].pcs|
    ensures states[n].done[t] <= states[n].begun[t]
  {
    RunInv(states, steps, n);
    var s := states[n];
    assert ThreadOk(s.sh.bits[t], s.pcs[t], s.begun[t], s.done[t], s.epoch[t]);
  }

  /** The grace period.  If the holder pushed at step i has been dropped by state n, every thread
      t has in between begun a release call (at step a) and completed that same call (at step b). */
  lemma GracePeriod(states: seq<State>, steps: seq<Step>, i: nat, n: nat, t: nat)
      returns (a: nat, b: nat)
    requires IsRun(states, steps) && i < n <= |steps| && t < |states[0].pcs|
    requires steps[i].Push? && |states[i].pushed| < |states[n].dropped|
    ensures i < a <= b < n
    ensures steps[a] == Run(t) && |states[a].pcs| > t && states[a].pcs[t] == Outside
    ensures |states[a + 1].begun| > t && |states[b].done| > t && |states[b + 1].done| > t
    ensures states[b].done[t] + 1 == states[b + 1].done[t] == states[a + 1].begun[t]
  {
    forall j | 0 <= j <= |steps|
      ensures |states[j].begun| == |states[j].done| == |states[0].pcs|
    {
      RunInv(states, steps, j);
    }
    DroppedIsDone(states, steps, i, n, t);
    var c := states[i].begun[t];
    a := CallBegins(states, steps, i, n, t, c);
    b := CallCompletes(states, steps, i, n, t, c);
    assert StepAt(states, steps, a);
    RunInv(states, steps, a);
    OneCallOpen(states, steps, b + 1, t);
    if b < a {
      CallsGrow(states, steps, b + 1, a, t);
    }
  }

  // ----- progress -----

  /** Thread t completes a release call at step k. */
  ghost predicate Completes(states: seq<State>, steps: seq<Step>, k: nat, t: nat) {
    && k < |steps| && k + 1 < |states|
    && t < |states[k].done| && t < |states[k + 1].done|
    && states[k].done[t] < states[k + 1].done[t]
  }

  ghost predicate ReleasesWithin(states: seq<State>, steps: seq<Step>, i: nat, n: nat, t: nat) {
    exists k :: i <= k < n && Completes(states, steps, k, t)
  }

  /** A thread that has released since the latest sweep has its bit set and owes nothing. */
  predicate Released(s: State, t: nat) {
    Sized(s) && t < |s.pcs| && s.sh.bits[t] == 1 && s.pcs[t] == Outside
  }

  lemma StepReleased(s: State, step: Step, s': State, t: nat)
    requires Inv(s) && Stepped(s, step, s') && s'.sweeps == s.sweeps && t < |s.pcs|
    ensures Released(s, t) || s.done[t] < s'.done[t] ==> Released(s', t)
  {
    assert ThreadOk(s.sh.bits[t], s.pcs[t], s.begun[t], s.done[t], s.epoch[t]);
    if step.Run? {
      var u := step.t;
      assert ThreadOk(s.sh.bits[u], s.pcs[u], s.begun[u], s.done[u], s.epoch[u]);
    }
  }

  lemma SweepsGrow(states: seq<State>, steps: seq<Step>, i: nat, n: nat)
    requires IsRun(states, steps) && i <= n <= |steps|
    ensures states[i].sweeps <= states[n].sweeps
  {
    RunOnward(states, steps, i, n);
  }

  lemma ReleasedOnward(states: seq<State>, steps: seq<Step>, k: nat, t: nat)
    requires IsRun(states, steps) && k < |steps| && states[k + 1].sweeps == states[k].sweeps
    ensures Completes(states, steps, k, t) || Released(states[k], t) ==> Released(states[k + 1], t)
  {
    RunInv(states, steps, k);
    assert StepAt(states, steps, k);
    if t < |states[k].pcs| {
      StepReleased(states[k], steps[k], states[k + 1], t);
    }
  }

  lemma {:induction false} StaysReleased(states: seq<State>, steps: seq<Step>, k: nat, n: nat, t: nat)
    requires IsRun(states, steps) && k < n <= |steps| && Completes(states, steps, k, t)
    requires states[n].sweeps == states[k].sweeps
    ensures Released(states[n], t)
  {
    SweepsGrow(states, steps, k, n - 1);
    SweepsGrow(states, steps, n - 1, n);
    if k < n - 1 {
      StaysReleased(states, steps, k, n - 1, t);
    }
    ReleasedOnward(states, steps, n - 1, t);
  }

  lemma NoneUnreleased(s: State)
    requires Sized(s) && forall t :: 0 <= t < |s.pcs| ==> Released(s, t)
    ensures Total(Weights(s.sh.bits, s.pcs)) == 0
  {
    var ws := Weights(s.sh.bits, s.pcs);
    forall t | 0 <= t < |ws|
      ensures ws[t] == 0
    {
      assert Released(s, t);
    }
    TotalConstant(ws, 0);
  }

  /** A stretch in which every thread completes a release contains a sweep. */
  lemma SweepHappens(states: seq<State>, steps: seq<Step>, i: nat, n: nat)
    requires IsRun(states, steps) && i <= n <= |steps| && |states[0].pcs| > 0
    requires forall t :: 0 <= t < |states[0].pcs| ==> ReleasesWithin(states, steps, i, n, t)
    ensures states[i].sweeps < states[n].sweeps
  {
    RunInv(states, steps, n);
    RunOnward(states, steps, i, n);
    if states[i].sweeps == states[n].sweeps {
      var s := states[n];
      forall t | 0 <= t < |s.pcs|
        ensures Released(s, t)
      {
        assert ReleasesWithin(states, steps, i, n, t);
        var k: nat :| i <= k < n && Completes(states, steps, k, t);
        RunOnward(states, steps, i, k);
        RunOnward(states, steps, k, n);
        StaysReleased(states, steps, k, n, t);
      }
      NoneUnreleased(s);
    }
  }

  /** Once every thread has completed a release, and then every thread has again, every holder
      pushed before has been dropped. */
  lemma EveryHolderIsDropped(states: seq<State>, steps: seq<Step>, i: nat, m: nat, n: nat)
    requires IsRun(states, steps) && i <= m <= n <= |steps| && |states[0].pcs| > 0
    requires forall t :: 0 <= t < |states[0].pcs| ==> ReleasesWithin(states, steps, i, m, t)
    requires forall t :: 0 <= t < |states[0].pcs| ==> ReleasesWithin(states, steps, m, n, t)
    ensures |states[i].pushed| <= |states[n].dropped|
    ensures states[i].pushed <= states[n].dropped
  {
    SweepHappens(states, steps, i, m);
    SweepHappens(states, steps, m, n);
    RunOnward(states, steps, i, m);
    RunOnward(states, steps, m, n);
    PushedGrows(states, steps, i, n);
    CleanerConserves(states, steps, n);
  }

  lemma {:induction false} PushedGrows(states: seq<State>, steps: seq<Step>, i: nat, n: nat)
    requires IsRun(states, steps) && i <= n <= |steps|
    ensures states[i].pushed <= states[n].pushed
  {
    if i < n {
      PushedGrows(states, steps, i, n - 1);
      assert StepAt(states, steps, n - 1);
    }
  }
}
