/** ThreadRunner::start and wait_for_completion: a group of threads created behind a closed gate.
    One round, from a gate at 0, as a step system: the main thread and up to |pcs| workers, each
    step one atomic action.  The gate is a Semaphore, a counter under a condition variable whose
    sleepers and signals are modelled one by one. */
module ThreadGroup {
  import opened Sums

  // The effects on the counter, for the step system and for the methods below.
  predicate Free(count: int) { count > 0 }

  function Acquired(count: int): (r: int)
    requires Free(count)
    ensures r >= 0 && Released(r) == count
  {
    count - 1
  }

  function Released(count: int): int { count + 1 }

  /** Gears::Semaphore without its blocking operation, which is a step of the system below. */
  class Semaphore {
    var count: int

    constructor (initial: int)
      ensures count == initial
    {
      count := initial;
    }

    method TryAcquire() returns (taken: bool)
      modifies this
      ensures taken == Free(old(count))
      ensures count == if taken then Acquired(old(count)) else old(count)
    {
      taken := count > 0;
      if taken {
        count := count - 1;
      }
    }

    method Release()
      modifies this
      ensures count == Released(old(count))
    {
      count := count + 1;
    }
  }

  /** A worker, from thread_func_. */
  datatype Pc =
    | NotCreated
    | Acquiring     // about to test the counter under the lock
    | Asleep        // waiting on the condition
    | Gate          // holds the gate: release next
    | Signalling    // counter incremented, signal next
    | Reading       // about to read number_running_
    | Working
    | Done

  /** The thread that calls start and wait_for_completion. */
  datatype MainPc =
    | Creating      // loop test, then pthread_create
    | Counting      // created one, number_running_++ next
    | Negating      // creation failed: number_running_ = -number_running_ next
    | Opening       // start_semaphore_.release(): the increment
    | OpenSignal    // and its signal
    | WaitTest      // if(number_running_)
    | Joining(i: nat)
    | MainAcquiring
    | MainAsleep
    | Resetting     // number_running_ = 0 next
    | Returned

  /** `created` and `failed` are history: how many threads exist, and whether a creation failed. */
  datatype Shared = Shared(count: int, running: int, main: MainPc, toStart: nat, created: nat, failed: bool)

  /** `runs` counts, by thread, how often job.work() has been called. */
  datatype State = State(sh: Shared, pcs: seq<Pc>, runs: seq<nat>)

  /** `wake` names the sleeper a signal wakes: a worker, |pcs| for the main thread, or -1 when
      nobody sleeps.  Spurious: a sleeper wakes by itself. */
  datatype Step = Main(created: bool, wake: int) | Worker(t: nat, wake: int) | Spurious(wake: int)

  /** start(requested) with as many jobs as there are places for threads. */
  function EffectiveStart(requested: nat, jobs: nat): (toStart: nat)
    ensures toStart <= jobs && (toStart == 0 <==> jobs == 0)
    ensures requested == 0 || requested > jobs ==> toStart == jobs
    ensures 1 <= requested <= jobs ==> toStart == requested
  {
    if requested == 0 || requested > jobs then jobs else requested
  }

  ghost predicate Initial(s: State) {
    && (exists requested :: s.sh.toStart == EffectiveStart(requested, |s.pcs|))
    && s.sh == Shared(0, 0, Creating, s.sh.toStart, 0, false)
    && |s.pcs| == |s.runs|
    && forall t :: 0 <= t < |s.pcs| ==> s.pcs[t] == NotCreated && s.runs[t] == 0
  }

  predicate Sleeps(s: State, w: int) {
    (0 <= w < |s.pcs| && s.pcs[w] == Asleep) || (w == |s.pcs| && s.sh.main == MainAsleep)
  }

  ghost predicate Wakes(s: State, w: int) {
    Sleeps(s, w) || (w == -1 && forall v :: !Sleeps(s, v))
  }

  function AbsInt(v: int): nat { if v < 0 then -v else v }

  ghost predicate Enabled(s: State, step: Step) {
    && |s.pcs| == |s.runs|
    && match step
       case Main(_, wake) =>
         && s.sh.main != Returned && s.sh.main != MainAsleep
         && (s.sh.main == Creating && s.sh.running < s.sh.toStart ==> s.sh.created < |s.pcs|)
         && (s.sh.main == OpenSignal ==> Wakes(s, wake))
         && (s.sh.main.Joining? && s.sh.main.i < AbsInt(s.sh.running) ==>
               s.sh.main.i < |s.pcs| && s.pcs[s.sh.main.i] == Done)
       case Worker(t, wake) =>
         && t < |s.pcs| && s.pcs[t] != NotCreated && s.pcs[t] != Asleep && s.pcs[t] != Done
         && (s.pcs[t] == Signalling ==> Wakes(s, wake))
       case Spurious(wake) => Sleeps(s, wake)
  }

  function Woken(s: State, w: int): State {
    if 0 <= w < |s.pcs| then s.(pcs := s.pcs[w := Acquiring])
    else if w == |s.pcs| then s.(sh := s.sh.(main := MainAcquiring))
    else s
  }

  function MainAction(sh: Shared, ok: bool): Shared {
    match sh.main
    case Creating =>
      if sh.running >= sh.toStart then sh.(main := Opening)
      else if ok then sh.(created := sh.created + 1, main := Counting)
      else sh.(failed := true, main := Negating)
    case Counting => sh.(running := sh.running + 1, main := Creating)
    case Negating => sh.(running := -sh.running, main := Opening)
    case Opening => sh.(count := Released(sh.count), main := OpenSignal)
    case OpenSignal => sh.(main := WaitTest)
    case WaitTest => sh.(main := if sh.running != 0 then Joining(0) else Returned)
    case Joining(i) => sh.(main := if i < AbsInt(sh.running) then Joining(i + 1) else MainAcquiring)
    case MainAcquiring =>
      if Free(sh.count) then sh.(count := Acquired(sh.count), main := Resetting) else sh.(main := MainAsleep)
    case Resetting => sh.(running := 0, main := Returned)
    case MainAsleep => sh
    case Returned => sh
  }

  function WorkerAction(pc: Pc, sh: Shared): (Pc, Shared) {
    match pc
    case Acquiring => if Free(sh.count) then (Gate, sh.(count := Acquired(sh.count))) else (Asleep, sh)
    case Gate => (Signalling, sh.(count := Released(sh.count)))
    case Signalling => (Reading, sh)
    case Reading => (if sh.running > 0 then Working else Done, sh)
    case Working => (Done, sh)
    case _ => (pc, sh)
  }

  function Worked(s: State, t: nat): State
    requires t < |s.pcs| == |s.runs|
  {
    var (pc, sh) := WorkerAction(s.pcs[t], s.sh);
    State(sh, s.pcs[t := pc], if pc == Working then s.runs[t := s.runs[t] + 1] else s.runs)
  }

  ghost function Next(s: State, step: Step): State
    requires Enabled(s, step)
  {
    match step
    case Main(ok, wake) =>
      var sh := MainAction(s.sh, ok);
      if sh.main == Counting then State(sh, s.pcs[s.sh.created := Acquiring], s.runs)
      else if s.sh.main == OpenSignal then Woken(s.(sh := sh), wake)
      else s.(sh := sh)
    case Worker(t, wake) =>
      if s.pcs[t] == Signalling then Woken(Worked(s, t), wake) else Worked(s, t)
    case Spurious(wake) => Woken(s, wake)
  }

  ghost predicate Stepped(s: State, step: Step, s': State) {
    Enabled(s, step) && s' == Next(s, step)
  }

  // ----- invariants -----

  predicate Opened(main: MainPc) {
    main != Creating && main != Counting && main != Negating && main != Opening
  }

  predicate Joined(main: MainPc) {
    main == MainAcquiring || main == MainAsleep || main == Resetting || main == Returned
  }

  predicate PastGate(pc: Pc) { pc == Gate || pc == Signalling || pc == Reading || pc == Working || pc == Done }

  predicate ThreadOk(t: nat, pc: Pc, runs: nat, sh: Shared) {
    && (pc == NotCreated <==> t >= sh.created)
    && (PastGate(pc) ==> Opened(sh.main))
    && (pc == Working ==> !sh.failed)
    && runs == (if !sh.failed && (pc == Working || pc == Done) then 1 else 0)
    && (t < sh.created && (Joined(sh.main) || (sh.main.Joining? && t < sh.main.i)) ==> pc == Done)
  }

  ghost predicate ThreadsOk(s: State) {
    && |s.pcs| == |s.runs|
    && forall t :: 0 <= t < |s.pcs| ==> ThreadOk(t, s.pcs[t], s.runs[t], s.sh)
  }

  /** How many times the gate is open: not before Opening, once until the final acquire. */
  function Tokens(sh: Shared): int {
    if !Opened(sh.main) || sh.main == Resetting || (sh.main == Returned && sh.created > 0) then 0 else 1
  }

  predicate SharedOk(sh: Shared, n: nat) {
    && sh.created <= sh.toStart <= n && sh.main != MainAsleep
    && (sh.main == Creating ==> sh.running == sh.created && !sh.failed)
    && (sh.main == Counting ==> sh.running + 1 == sh.created && !sh.failed)
    && (sh.main == Negating ==> sh.running == sh.created && sh.failed)
    && (sh.main == Returned ==> sh.running == 0)
    && (Opened(sh.main) || sh.main == Opening || sh.main == Negating ==>
          (sh.failed <==> sh.created < sh.toStart))
    && ((Opened(sh.main) && sh.main != Returned) || sh.main == Opening ==>
          sh.running == if sh.failed then -(sh.created as int) else sh.created)
    && (sh.main.Joining? ==> sh.main.i <= sh.created && sh.created > 0)
    && (Joined(sh.main) && sh.main != Returned ==> sh.created > 0)
  }

  function Gates(pcs: seq<Pc>): (ws: seq<int>)
    ensures |ws| == |pcs| && forall i :: 0 <= i < |pcs| ==> ws[i] == if pcs[i] == Gate then 1 else 0
  {
    seq(|pcs|, i requires 0 <= i < |pcs| => if pcs[i] == Gate then 1 else 0)
  }

  /** The semaphore's value plus the threads between acquire and release. */
  ghost predicate GateOk(s: State) {
    s.sh.count >= 0 && s.sh.count + Total(Gates(s.pcs)) == Tokens(s.sh)
  }

  /** Somebody awake will look at the counter, or is about to wake somebody who will. */
  predicate Attentive(pc: Pc) { pc == Acquiring || pc == Signalling }

  ghost predicate SomeAttentive(s: State) {
    || s.sh.main == OpenSignal || s.sh.main == MainAcquiring
    || exists t :: 0 <= t < |s.pcs| && Attentive(s.pcs[t])
  }

  ghost predicate SomeSleeper(s: State) { exists v :: Sleeps(s, v) }

  /** No wake-up is lost: nobody sleeps on an open gate unless somebody is attentive. */
  ghost predicate NoLostWakeup(s: State) {
    s.sh.count > 0 && SomeSleeper(s) ==> SomeAttentive(s)
  }

  ghost predicate Inv(s: State) {
    ThreadsOk(s) && SharedOk(s.sh, |s.pcs|) && GateOk(s) && NoLostWakeup(s)
  }

  lemma InitialInv(s: State)
    requires Initial(s)
    ensures Inv(s)
  {
    TotalConstant(Gates(s.pcs), 0);
  }

  /** When the main thread comes to its final acquire the gate is open and free. */
  lemma GateFreeAtEnd(s: State)
    requires ThreadsOk(s) && GateOk(s) && s.sh.main == MainAcquiring
    ensures s.sh.count == 1
  {
    forall t | 0 <= t < |s.pcs|
      ensures Gates(s.pcs)[t] == 0
    {
      assert ThreadOk(t, s.pcs[t], s.runs[t], s.sh);
    }
    TotalConstant(Gates(s.pcs), 0);
  }

  lemma MainShared(s: State, ok: bool)
    requires Inv(s)
    ensures SharedOk(MainAction(s.sh, ok), |s.pcs|)
  {
    if s.sh.main == MainAcquiring {
      GateFreeAtEnd(s);
    }
  }

  lemma GateMoves(pcs: seq<Pc>, t: nat, pc: Pc)
    requires t < |pcs|
    ensures Total(Gates(pcs[t := pc])) ==
            Total(Gates(pcs)) - (if pcs[t] == Gate then 1 else 0) + (if pc == Gate then 1 else 0)
  {
    TotalUpdate(Gates(pcs), t, if pc == Gate then 1 else 0);
    assert Gates(pcs[t := pc]) == Gates(pcs)[t := if pc == Gate then 1 else 0];
  }

  // --- waking keeps everything

  lemma WokenInv(s: State, w: int)
    requires ThreadsOk(s) && SharedOk(s.sh, |s.pcs|) && GateOk(s) && Wakes(s, w)
    ensures Inv(Woken(s, w))
  {
    var s' := Woken(s, w);
    if 0 <= w < |s.pcs| {
      GateMoves(s.pcs, w, Acquiring);
      assert ThreadOk(w, s.pcs[w], s.runs[w], s.sh);
      assert Attentive(s'.pcs[w]);
    }
  }

  // --- the main thread

  lemma MainThread(t: nat, pc: Pc, runs: nat, sh: Shared, ok: bool, n: nat)
    requires ThreadOk(t, pc, runs, sh) && SharedOk(sh, n)
    requires sh.main.Joining? && t == sh.main.i && t < AbsInt(sh.running) ==> pc == Done
    ensures var sh' := MainAction(sh, ok);
      ThreadOk(t, if sh'.main == Counting && t == sh.created then Acquiring else pc, runs, sh')
  {
  }

  lemma MainThreads(s: State, ok: bool, wake: int)
    requires Inv(s) && Enabled(s, Main(ok, wake))
    ensures var sh := MainAction(s.sh, ok);
      ThreadsOk(State(sh, if sh.main == Counting then s.pcs[s.sh.created := Acquiring] else s.pcs, s.runs))
  {
    var sh := MainAction(s.sh, ok);
    var pcs := if sh.main == Counting then s.pcs[s.sh.created := Acquiring] else s.pcs;
    forall t | 0 <= t < |s.pcs|
      ensures ThreadOk(t, pcs[t], s.runs[t], sh)
    {
      MainThread(t, s.pcs[t], s.runs[t], s.sh, ok, |s.pcs|);
    }
  }

  lemma MainWakeups(s: State, ok: bool)
    requires Inv(s) && s.sh.main != OpenSignal && s.sh.main != Returned && s.sh.main != MainAsleep
    requires s.sh.main == MainAcquiring ==> s.sh.count == 1
    ensures NoLostWakeup(s.(sh := MainAction(s.sh, ok)))
  {
    var s' := s.(sh := MainAction(s.sh, ok));
    if s'.sh.count > 0 && SomeSleeper(s') && s'.sh.main != OpenSignal {
      var v :| Sleeps(s', v);
      assert Sleeps(s, v);
    }
  }

  lemma MainGate(s: State, ok: bool)
    requires Inv(s) && s.sh.main != Returned
    ensures var sh := MainAction(s.sh, ok);
      sh.count >= 0 && sh.count + Total(Gates(s.pcs)) == Tokens(sh)
  {
    if s.sh.main == MainAcquiring {
      GateFreeAtEnd(s);
    }
  }

  lemma MainCreates(s: State, ok: bool, wake: int)
    requires Inv(s) && Enabled(s, Main(ok, wake)) && MainAction(s.sh, ok).main == Counting
    ensures Inv(Next(s, Main(ok, wake)))
  {
    var c := s.sh.created;
    MainShared(s, ok);
    MainThreads(s, ok, wake);
    MainGate(s, ok);
    assert ThreadOk(c, s.pcs[c], s.runs[c], s.sh);
    GateMoves(s.pcs, c, Acquiring);
    assert Attentive(Next(s, Main(ok, wake)).pcs[c]);
  }

  lemma MainSignals(s: State, wake: int)
    requires Inv(s) && s.sh.main == OpenSignal && Wakes(s, wake)
    ensures Inv(Woken(s.(sh := s.sh.(main := WaitTest)), wake))
  {
    var s' := s.(sh := s.sh.(main := WaitTest));
    assert MainAction(s.sh, true) == s'.sh;
    MainShared(s, true);
    MainGate(s, true);
    forall t | 0 <= t < |s.pcs|
      ensures ThreadOk(t, s'.pcs[t], s'.runs[t], s'.sh)
    {
      MainThread(t, s.pcs[t], s.runs[t], s.sh, true, |s.pcs|);
    }
    SameSleepers(s, s', wake);
    WokenInv(s', wake);
  }

  lemma SameSleepers(s: State, s': State, w: int)
    requires Wakes(s, w) && forall v :: Sleeps(s', v) <==> Sleeps(s, v)
    ensures Wakes(s', w)
  {
  }

  lemma MainInv(s: State, ok: bool, wake: int)
    requires Inv(s) && Enabled(s, Main(ok, wake))
    ensures Inv(Next(s, Main(ok, wake)))
  {
    var sh := MainAction(s.sh, ok);
    if sh.main == Counting {
      MainCreates(s, ok, wake);
    } else if s.sh.main == OpenSignal {
      MainSignals(s, wake);
    } else {
      MainShared(s, ok);
      MainThreads(s, ok, wake);
      MainGate(s, ok);
      if s.sh.main == MainAcquiring {
        GateFreeAtEnd(s);
      }
      MainWakeups(s, ok);
    }
  }

  // --- a worker

  lemma WorkerThread(t: nat, pc: Pc, runs: nat, sh: Shared, n: nat)
    requires ThreadOk(t, pc, runs, sh) && SharedOk(sh, n) && pc != NotCreated
    requires sh.count > 0 ==> Opened(sh.main)
    ensures var (pc', sh') := WorkerAction(pc, sh);
      && ThreadOk(t, pc', if pc' == Working then runs + 1 else runs, sh')
      && sh' == sh.(count := sh'.count)
      && sh'.count + (if pc' == Gate then 1 else 0) == sh.count + (if pc == Gate then 1 else 0)
      && (sh.count >= 0 ==> sh'.count >= 0)
  {
  }

  lemma WorkerKeeps(s: State, t: nat)
    requires Inv(s) && t < |s.pcs| && s.pcs[t] != NotCreated && s.pcs[t] != Done
    ensures var s' := Worked(s, t);
      ThreadsOk(s') && SharedOk(s'.sh, |s'.pcs|) && GateOk(s')
  {
    var (pc, sh) := WorkerAction(s.pcs[t], s.sh);
    TotalNonNegative(Gates(s.pcs));
    WorkerThread(t, s.pcs[t], s.runs[t], s.sh, |s.pcs|);
    GateMoves(s.pcs, t, pc);
    forall i | 0 <= i < |s.pcs| && i != t
      ensures ThreadOk(i, s.pcs[i], s.runs[i], sh)
    {
      assert ThreadOk(i, s.pcs[i], s.runs[i], s.sh);
    }
  }

  lemma WorkerWakeups(s: State, t: nat)
    requires Inv(s) && t < |s.pcs| && s.pcs[t] != Signalling && s.pcs[t] != Asleep
    ensures NoLostWakeup(Worked(s, t))
  {
    var (pc, sh) := WorkerAction(s.pcs[t], s.sh);
    var s' := Worked(s, t);
    assert s'.pcs[t] == pc;
    TotalNonNegative(Gates(s.pcs));
    if s.pcs[t] == Acquiring {
      assert sh.count <= 0;
    } else if s.pcs[t] == Gate {
      assert Attentive(s'.pcs[t]);
    } else if s'.sh.count > 0 && SomeSleeper(s') {
      var v :| Sleeps(s', v);
      assert Sleeps(s, v);
      if exists u :: 0 <= u < |s.pcs| && Attentive(s.pcs[u]) {
        var u :| 0 <= u < |s.pcs| && Attentive(s.pcs[u]);
        assert Attentive(s'.pcs[u]);
      }
    }
  }

  lemma WorkerSignals(s: State, t: nat, wake: int)
    requires Inv(s) && t < |s.pcs| && s.pcs[t] == Signalling && Wakes(s, wake)
    ensures Inv(Woken(Worked(s, t), wake))
  {
    var s' := Worked(s, t);
    WorkerKeeps(s, t);
    SameSleepers(s, s', wake);
    WokenInv(s', wake);
  }

  lemma WorkerInv(s: State, t: nat, wake: int)
    requires Inv(s) && Enabled(s, Worker(t, wake))
    ensures Inv(Next(s, Worker(t, wake)))
  {
    if s.pcs[t] == Signalling {
      WorkerSignals(s, t, wake);
    } else {
      WorkerKeeps(s, t);
      WorkerWakeups(s, t);
    }
  }

  lemma InvStep(s: State, step: Step, s': State)
    requires Inv(s) && Stepped(s, step, s')
    ensures Inv(s')
  {
    match step
    case Main(ok, wake) => MainInv(s, ok, wake);
    case Worker(t, wake) => WorkerInv(s, t, wake);
    case Spurious(wake) => WokenInv(s, wake);
  }

  // ----- theorems over every round -----

  ghost predicate StepAt(states: seq<State>, steps: seq<Step>, k: int) {
    0 <= k < |steps| && k + 1 < |states| && Stepped(states[k], steps[k], states[k + 1])
  }

  ghost predicate IsRun(states: seq<State>, steps: seq<Step>) {
    && |states| == |steps| + 1 && Initial(states[0])
    && forall k :: 0 <= k < |steps| ==> StepAt(states, steps, k)
  }

  lemma {:induction false} RunInv(states: seq<State>, steps: seq<Step>, n: nat)
    requires IsRun(states, steps) && n <= |steps|
    ensures Inv(states[n])
  {
    if n == 0 {
      InitialInv(states[0]);
    } else {
      RunInv(states, steps, n - 1);
      assert StepAt(states, steps, n - 1);
      InvStep(states[n - 1], steps[n - 1], states[n]);
    }
  }

  /** No job runs before every requested thread exists, none after a failed creation, and none
      twice. */
  lemma NoneBeforeAllExist(states: seq<State>, steps: seq<Step>, n: nat, t: nat)
    requires IsRun(states, steps) && n <= |steps| && t < |states[n].runs|
    requires states[n].runs[t] > 0
    ensures states[n].runs[t] == 1 && t < states[n].sh.toStart
    ensures states[n].sh.created == states[n].sh.toStart && !states[n].sh.failed
  {
    RunInv(states, steps, n);
    var s := states[n];
    assert ThreadOk(t, s.pcs[t], s.runs[t], s.sh);
  }

  /** When the round is over, either every requested job has run exactly once, or a creation
      failed and no job has run at all. */
  lemma AllOrNone(states: seq<State>, steps: seq<Step>, n: nat)
    requires IsRun(states, steps) && n <= |steps| && states[n].sh.main == Returned
    ensures var s := states[n];
      && |s.runs| == |s.pcs|
      && forall t :: 0 <= t < |s.runs| ==> s.runs[t] == if !s.sh.failed && t < s.sh.toStart then 1 else 0
  {
    RunInv(states, steps, n);
    var s := states[n];
    forall t | 0 <= t < |s.runs|
      ensures s.runs[t] == if !s.sh.failed && t < s.sh.toStart then 1 else 0
    {
      assert ThreadOk(t, s.pcs[t], s.runs[t], s.sh);
    }
  }

  /** The semaphore's value plus the threads between acquire and release is 0 before the gate is
      opened and 1 until the final acquire; that acquire finds it at 1 and never sleeps; and the
      round leaves the gate closed exactly when it created a thread. */
  lemma GateCounts(states: seq<State>, steps: seq<Step>, n: nat)
    requires IsRun(states, steps) && n <= |steps|
    ensures var s := states[n];
      && s.sh.count + Total(Gates(s.pcs)) == Tokens(s.sh)
      && s.sh.main != MainAsleep
      && (s.sh.main == MainAcquiring ==> s.sh.count == 1)
      && (s.sh.main == Returned ==> (s.sh.count == 0 <==> s.sh.created > 0))
  {
    RunInv(states, steps, n);
    var s := states[n];
    if s.sh.main == MainAcquiring {
      GateFreeAtEnd(s);
    }
    if s.sh.main == Returned {
      NoGatesAtEnd(s);
    }
  }

  lemma NoGatesAtEnd(s: State)
    requires Inv(s) && s.sh.main == Returned
    ensures Total(Gates(s.pcs)) == 0
  {
    forall t | 0 <= t < |s.pcs|
      ensures Gates(s.pcs)[t] == 0
    {
      assert ThreadOk(t, s.pcs[t], s.runs[t], s.sh);
    }
    TotalConstant(Gates(s.pcs), 0);
  }

  // ----- progress -----

  /** A sleeper to wake, or -1. */
  lemma SomeWake(s: State) returns (w: int)
    ensures Wakes(s, w)
  {
    if SomeSleeper(s) {
      w :| Sleeps(s, w);
    } else {
      w := -1;
    }
  }

  lemma WorkerCanStep(s: State, t: nat) returns (step: Step)
    requires Inv(s) && t < |s.pcs|
    requires s.pcs[t] != NotCreated && s.pcs[t] != Asleep && s.pcs[t] != Done
    ensures Enabled(s, step) && !step.Spurious?
  {
    var w := SomeWake(s);
    step := Worker(t, w);
  }

  /** If somebody sleeps at the gate, somebody else can move. */
  lemma SleeperIsServed(s: State, t: nat) returns (u: nat)
    requires Inv(s) && t < |s.pcs| && s.pcs[t] == Asleep && s.sh.main.Joining?
    ensures u < |s.pcs| && (Attentive(s.pcs[u]) || s.pcs[u] == Gate)
  {
    if s.sh.count > 0 {
      assert Sleeps(s, t);
      u :| u < |s.pcs| && Attentive(s.pcs[u]);
    } else {
      if forall i :: 0 <= i < |s.pcs| ==> s.pcs[i] != Gate {
        TotalConstant(Gates(s.pcs), 0);
      }
      u :| u < |s.pcs| && s.pcs[u] == Gate;
    }
  }

  /** No round gets stuck: until start and wait have returned, some thread can act without
      relying on a spurious wake-up. */
  lemma NeverStuck(states: seq<State>, steps: seq<Step>, n: nat) returns (step: Step)
    requires IsRun(states, steps) && n <= |steps| && states[n].sh.main != Returned
    ensures Enabled(states[n], step) && !step.Spurious?
  {
    RunInv(states, steps, n);
    var s := states[n];
    if s.sh.main.Joining? && s.sh.main.i < AbsInt(s.sh.running) && s.pcs[s.sh.main.i] != Done {
      var t := s.sh.main.i;
      assert ThreadOk(t, s.pcs[t], s.runs[t], s.sh);
      if s.pcs[t] == Asleep {
        t := SleeperIsServed(s, t);
      }
      step := WorkerCanStep(s, t);
    } else {
      var w := SomeWake(s);
      step := Main(true, w);
    }
  }

  function Rank(pc: Pc): nat {
    match pc
    case NotCreated => 9
    case Acquiring => 7
    case Asleep => 6
    case Gate => 5
    case Signalling => 4
    case Reading => 2
    case Working => 1
    case Done => 0
  }

  function Ranks(pcs: seq<Pc>): (ws: seq<int>)
    ensures |ws| == |pcs| && forall i :: 0 <= i < |pcs| ==> ws[i] == Rank(pcs[i])
  {
    seq(|pcs|, i requires 0 <= i < |pcs| => Rank(pcs[i]))
  }

  function MainRank(main: MainPc, n: int): int {
    match main
    case Creating => n + 10
    case Counting => n + 11
    case Negating => n + 9
    case Opening => n + 8
    case OpenSignal => n + 7
    case WaitTest => n + 5
    case Joining(i) => n + 4 - i
    case MainAcquiring => 3
    case MainAsleep => 2
    case Resetting => 1
    case Returned => 0
  }

  /** Bounds the steps left in the round. */
  function Work(s: State): int { Total(Ranks(s.pcs)) + MainRank(s.sh.main, |s.pcs|) }

  lemma RankMoves(pcs: seq<Pc>, t: nat, pc: Pc)
    requires t < |pcs|
    ensures Total(Ranks(pcs[t := pc])) == Total(Ranks(pcs)) - Rank(pcs[t]) + Rank(pc)
  {
    TotalUpdate(Ranks(pcs), t, Rank(pc));
    assert Ranks(pcs[t := pc]) == Ranks(pcs)[t := Rank(pc)];
  }

  lemma WakeCostsOne(s: State, w: int)
    requires Wakes(s, w)
    ensures Work(Woken(s, w)) <= Work(s) + 1
  {
    if 0 <= w < |s.pcs| {
      RankMoves(s.pcs, w, Acquiring);
    }
  }

  lemma StepWorks(s: State, step: Step, s': State)
    requires Inv(s) && Stepped(s, step, s') && !step.Spurious?
    ensures Work(s') < Work(s)
  {
    match step
    case Main(ok, wake) => MainWorks(s, ok, wake);
    case Worker(t, wake) =>
      RankMoves(s.pcs, t, WorkerAction(s.pcs[t], s.sh).0);
      assert Work(Worked(s, t)) < Work(s);
      if s.pcs[t] == Signalling {
        SameSleepers(s, Worked(s, t), wake);
        WakeCostsOne(Worked(s, t), wake);
      }
  }

  lemma MainWorks(s: State, ok: bool, wake: int)
    requires Inv(s) && Enabled(s, Main(ok, wake))
    ensures Work(Next(s, Main(ok, wake))) < Work(s)
  {
    var sh := MainAction(s.sh, ok);
    var s1 := s.(sh := sh);
    if sh.main == Counting {
      var c := s.sh.created;
      assert ThreadOk(c, s.pcs[c], s.runs[c], s.sh);
      RankMoves(s.pcs, c, Acquiring);
    } else if s.sh.main == OpenSignal {
      SameSleepers(s, s1, wake);
      WakeCostsOne(s1, wake);
    }
  }

  lemma WorkNonNegative(s: State)
    requires Inv(s)
    ensures Work(s) >= 0
  {
    TotalNonNegative(Ranks(s.pcs));
  }

  /** A round without spurious wake-ups takes at most Work(states[0]) steps, so with NeverStuck
      every such round, however it is scheduled, ends with start and wait returned. */
  lemma {:induction false} RoundsEnd(states: seq<State>, steps: seq<Step>, n: nat)
    requires IsRun(states, steps) && n <= |steps|
    requires forall k :: 0 <= k < n ==> !steps[k].Spurious?
    ensures n + Work(states[n]) <= Work(states[0]) && Work(states[n]) >= 0
  {
    RunInv(states, steps, n);
    WorkNonNegative(states[n]);
    if n > 0 {
      RoundsEnd(states, steps, n - 1);
      RunInv(states, steps, n - 1);
      assert StepAt(states, steps, n - 1);
      StepWorks(states[n - 1], steps[n - 1], states[n]);
    }
  }
}
