/** What holds of a composite of active objects over every sequence of calls: agreement, the order of
    its leaves, and that no leaf is forgotten. */
module CompositeRuns {
  import opened CompositeActivation

  // ----- any sequence of calls -----

  datatype Call =
    | CallActivate(failing: set<int>)
    | CallDeactivate
    | CallWait
    | CallAdd(child: Tree, toHead: bool, starting: set<int>)
    | CallClear

  /** A wait on an active composite has not returned yet; a child that is added agrees in itself. */
  predicate Allowed(t: Tree, call: Call)
    requires t.Composite?
  {
    && (call.CallWait? ==> !t.state.Active?)
    && (call.CallAdd? ==> Agree(call.child))
  }

  function After(t: Tree, call: Call): (r: Tree)
    requires t.Composite?
    ensures r.Composite?
  {
    match call
    case CallActivate(failing) => Activate(t, failing).tree
    case CallDeactivate => Deactivate(t).tree
    case CallWait => Wait(t).tree
    case CallAdd(child, toHead, starting) => AddChild(t, child, toHead, starting).tree
    case CallClear => Clear(t).tree
  }

  lemma CallKeepsAgreement(t: Tree, call: Call)
    requires t.Composite? && Agree(t) && Allowed(t, call)
    ensures Agree(After(t, call))
  {
    match call
    case CallActivate(failing) => ActivateAgrees(t, failing);
    case CallDeactivate => DeactivateAgrees(t);
    case CallWait => WaitAgrees(t);
    case CallAdd(child, toHead, starting) => AddAgrees(t, child, toHead, starting);
    case CallClear =>
  }

  predicate IsRun(states: seq<Tree>, calls: seq<Call>) {
    && |states| == |calls| + 1
    && states[0].Composite? && states[0].children == [] && states[0].state.NotActive?
    && forall k :: 0 <= k < |calls| ==> Called(states, calls, k)
  }

  predicate Called(states: seq<Tree>, calls: seq<Call>, k: nat)
    requires |states| == |calls| + 1 && k < |calls|
  {
    states[k].Composite? && Allowed(states[k], calls[k]) && states[k + 1] == After(states[k], calls[k])
  }

  /** Over every sequence of calls the composite and its children stay in agreement. */
  lemma {:induction false} AgreementOverRuns(states: seq<Tree>, calls: seq<Call>, n: nat)
    requires IsRun(states, calls) && n < |states|
    ensures states[n].Composite? && Agree(states[n])
    decreases n
  {
    if n > 0 {
      AgreementOverRuns(states, calls, n - 1);
      assert Called(states, calls, n - 1);
      CallKeepsAgreement(states[n - 1], calls[n - 1]);
    }
  }

  // ----- the order of the additions -----

  lemma SameLeaves(a: Tree, b: Tree)
    requires Set(a, NotActive) == Set(b, NotActive)
    ensures Leaves(a) == Leaves(b)
  {
    LeavesOfSet(a, NotActive);
    LeavesOfSet(b, NotActive);
  }

  /** Starting, stopping and waiting neither add, remove nor move a leaf. */
  lemma CallKeepsLeaves(t: Tree, call: Call)
    requires t.Composite? && Agree(t) && Allowed(t, call) && !call.CallAdd? && !call.CallClear?
    ensures Leaves(After(t, call)) == Leaves(t)
  {
    match call
    case CallActivate(failing) =>
      ActivateAllOrNothing(t, failing);
      LeavesOfSet(t, Active);
    case CallDeactivate =>
      if t.state.Active? {
        DeactivateStops(t);
        SameLeaves(Deactivate(t).tree, t);
      }
    case CallWait =>
      WaitRests(t);
      LeavesOfSet(t, NotActive);
  }

  /** The leaves of the children accepted since the last clearing, those added later behind those added
      before, or in front of them when added to the head. */
  function AddedOrder(states: seq<Tree>, calls: seq<Call>, n: nat): seq<int>
    requires IsRun(states, calls) && n < |states|
  {
    if n == 0 then [] else
    var before := AddedOrder(states, calls, n - 1);
    assert Called(states, calls, n - 1);
    match calls[n - 1]
    case CallAdd(child, toHead, starting) =>
      if !AddChild(states[n - 1], child, toHead, starting).ok then before
      else if toHead then Leaves(child) + before
      else before + Leaves(child)
    case CallClear => []
    case _ => before
  }

  /** In every run the leaves stand in the order of the additions. */
  lemma {:induction false} OrderOverRuns(states: seq<Tree>, calls: seq<Call>, n: nat)
    requires IsRun(states, calls) && n < |states|
    ensures Leaves(states[n]) == AddedOrder(states, calls, n)
    decreases n
  {
    if n > 0 {
      var t, call := states[n - 1], calls[n - 1];
      assert Called(states, calls, n - 1);
      AgreementOverRuns(states, calls, n - 1);
      OrderOverRuns(states, calls, n - 1);
      if call.CallAdd? {
        AddPlaces(t, call.child, call.toHead, call.starting);
      } else if !call.CallClear? {
        CallKeepsLeaves(t, call);
      }
    }
  }

  /** So an activation that succeeds starts the leaves in the order in which they were added, and the
      next deactivation stops them in the reverse order. */
  lemma StartsInOrderOfAddition(states: seq<Tree>, calls: seq<Call>, n: nat, failing: set<int>)
    requires IsRun(states, calls) && n < |states|
    ensures var r := Activate(states[n], failing);
      r.ok ==>
        && r.log == Each(Start, AddedOrder(states, calls, n))
        && Deactivate(r.tree).log.Stopped() == Reverse(AddedOrder(states, calls, n))
  {
    OrderOverRuns(states, calls, n);
    AgreementOverRuns(states, calls, n);
    ActivateAllOrNothing(states[n], failing);
    var r := Activate(states[n], failing);
    if r.ok {
      ActiveTreeAgrees(states[n]);
      LeavesOfSet(states[n], Active);
      DeactivateStops(r.tree);
    }
  }

  // ----- no leaf is forgotten -----

  /** The active leaves. */
  function Running(t: Tree): multiset<int> {
    match t
    case Leaf(state, id) => if state.Active? then multiset{id} else multiset{}
    case Composite(_, _, children) => RunningIn(children)
  }

  function RunningIn(ts: seq<Tree>): multiset<int> {
    if ts == [] then multiset{} else RunningIn(Front(ts)) + Running(Last(ts))
  }

  lemma {:induction false} RunningSet(t: Tree, state: State)
    ensures Running(Set(t, state)) == if state.Active? then multiset(Leaves(t)) else multiset{}
    decreases t
  {
    if t.Composite? {
      RunningSetAll(t.children, state);
    }
  }

  lemma {:induction false} RunningSetAll(ts: seq<Tree>, state: State)
    ensures RunningIn(SetAll(ts, state)) == if state.Active? then multiset(LeavesOf(ts)) else multiset{}
    decreases ts
  {
    if ts != [] {
      RunningSet(Last(ts), state);
      RunningSetAll(Front(ts), state);
      FrontOfAppend(SetAll(Front(ts), state), Set(Last(ts), state));
    }
  }

  lemma {:induction false} StoppingSet(t: Tree, state: State)
    requires !state.Deactivating?
    ensures Stopping(Set(t, state)) == []
    decreases t
  {
    if t.Composite? {
      StoppingSetAll(t.children, state);
    }
  }

  lemma {:induction false} StoppingSetAll(ts: seq<Tree>, state: State)
    requires !state.Deactivating?
    ensures StoppingOf(SetAll(ts, state)) == []
    decreases ts
  {
    if ts != [] {
      StoppingSet(Last(ts), state);
      StoppingSetAll(Front(ts), state);
      FrontOfAppend(SetAll(Front(ts), state), Set(Last(ts), state));
    }
  }

  lemma {:induction false} ActiveIsUniform(t: Tree)
    requires Agree(t) && t.state.Active?
    ensures t == Set(t, Active)
    decreases t
  {
    if t.Composite? {
      forall k | 0 <= k < |t.children| ensures t.children[k] == SetAll(t.children, Active)[k] {
        ActiveIsUniform(t.children[k]);
      }
    }
  }

  lemma {:induction false} InactiveRunsNothing(t: Tree)
    requires Agree(t) && !t.state.Active?
    ensures Running(t) == multiset{}
    decreases t
  {
    if t.Composite? {
      NoneRuns(t.children);
    }
  }

  lemma {:induction false} NoneRuns(ts: seq<Tree>)
    requires AllAgree(ts) && NoneActive(ts)
    ensures RunningIn(ts) == multiset{}
    decreases ts
  {
    if ts != [] {
      InactiveRunsNothing(Last(ts));
      NoneRuns(Front(ts));
    }
  }

  /** What runs and what is stopping in a tree that agrees. */
  lemma ActiveRunsAll(t: Tree)
    requires Agree(t) && t.state.Active?
    ensures Running(t) == multiset(Leaves(t)) && Stopping(t) == []
  {
    ActiveIsUniform(t);
    RunningSet(t, Active);
    StoppingSet(t, Active);
  }

  lemma RestingHasNone(t: Tree)
    ensures Running(Set(t, NotActive)) == multiset{} && Stopping(Set(t, NotActive)) == []
  {
    RunningSet(t, NotActive);
    StoppingSet(t, NotActive);
  }

  /** From `t`, and what comes in, to `after`: a leaf that is started runs until it is told to stop, and
      one that is told to stop is stopping until it is waited for. */
  predicate Balanced(t: Tree, running: multiset<int>, stopping: multiset<int>, after: Tree, log: Log) {
    && Flows(Running(t), running, multiset(log.Started()), Running(after), multiset(log.Stopped()))
    && Flows(multiset(Stopping(t)), stopping, multiset(log.Stopped()),
             multiset(Stopping(after)), multiset(log.Joined()))
  }

  /** What is there afterwards or has left was there before, was brought or has entered. */
  predicate Flows(before: multiset<int>, brought: multiset<int>, entered: multiset<int>,
                  after: multiset<int>, left: multiset<int>)
  {
    after + left == before + brought + entered
  }

  const NOBODY: multiset<int> := multiset{}

  lemma FlowsOn(a: multiset<int>, br: multiset<int>, en: multiset<int>, b: multiset<int>, le: multiset<int>,
                br': multiset<int>, en': multiset<int>, c: multiset<int>, le': multiset<int>)
    requires Flows(a, br, en, b, le) && Flows(b, br', en', c, le')
    ensures Flows(a, br + br', en + en', c, le + le')
  {
    forall x: int
      ensures (c + (le + le'))[x] == (a + (br + br') + (en + en'))[x]
    {
      assert (b + le)[x] == (a + br + en)[x];
      assert (c + le')[x] == (b + br' + en')[x];
    }
  }

  lemma FlowsBeside(x: multiset<int>, a: multiset<int>, en: multiset<int>, b: multiset<int>, le: multiset<int>)
    requires Flows(a, NOBODY, en, b, le)
    ensures Flows(x, a, en, x + b, le)
  {
    forall y: int
      ensures (x + b + le)[y] == (x + a + en)[y]
    {
      assert (b + le)[y] == (a + NOBODY + en)[y];
    }
  }

  lemma FlowsThrough(a: multiset<int>, en: multiset<int>)
    ensures Flows(a, NOBODY, en, a, en)
  {
  }

  lemma FlowsIn(a: multiset<int>)
    ensures Flows(NOBODY, NOBODY, a, a, NOBODY) && Flows(a, NOBODY, NOBODY, NOBODY, a)
    ensures Flows(a, NOBODY, NOBODY, a, NOBODY)
  {
  }

  /** An undone log leaves the tree as it was. */
  lemma UndoneBalances(t: Tree, log: Log)
    requires Undone(log)
    ensures Balanced(t, NOBODY, NOBODY, t, log)
  {
    MultisetOfReverse(log.Started());
    FlowsThrough(Running(t), multiset(log.Started()));
    FlowsThrough(multiset(Stopping(t)), multiset(log.Started()));
  }

  lemma ActivateBalances(t: Tree, failing: set<int>)
    requires Agree(t)
    ensures var r := Activate(t, failing); Balanced(t, NOBODY, NOBODY, r.tree, r.log)
  {
    var r := Activate(t, failing);
    ActivateAllOrNothing(t, failing);
    if r.ok {
      StartBalances(t);
    } else {
      UndoneBalances(t, r.log);
    }
  }

  lemma StartBalances(t: Tree)
    requires Idle(t)
    ensures Balanced(t, NOBODY, NOBODY, Set(t, Active), Each(Start, Leaves(t)))
  {
    IdleAgrees(t);
    InactiveRunsNothing(t);
    RunningSet(t, Active);
    StoppingSet(t, Active);
    FlowsIn(multiset(Leaves(t)));
  }

  lemma DeactivateBalances(t: Tree)
    requires Agree(t)
    ensures var r := Deactivate(t); Balanced(t, NOBODY, NOBODY, r.tree, r.log)
  {
    if t.state.Active? {
      var r := Deactivate(t);
      DeactivateStops(t);
      ActiveRunsAll(t);
      InactiveRunsNothing(r.tree);
      MultisetOfReverse(Leaves(t));
      FlowsIn(multiset(Leaves(t)));
      JoinedOf(r.log.Joined(), Stopping(r.tree));
    }
  }

  lemma WaitBalances(t: Tree)
    requires Agree(t) && !t.state.Active?
    ensures var r := Wait(t); Balanced(t, NOBODY, NOBODY, r.tree, r.log)
  {
    WaitRests(t);
    InactiveRunsNothing(t);
    RestingHasNone(t);
    MultisetOfReverse(Stopping(t));
    FlowsIn(multiset(Stopping(t)));
  }

  lemma ClearActiveBalances(t: Tree)
    requires t.Composite? && Agree(t) && t.state.Active?
    ensures Balanced(t, NOBODY, NOBODY, Clear(t).tree, Clear(t).log)
  {
    ClearStops(t);
    ActiveRunsAll(t);
    EmptyComposite(t.sync);
    MultisetOfReverse(Leaves(t));
    FlowsIn(multiset(Leaves(t)));
    FlowsThrough(NOBODY, multiset(Leaves(t)));
  }

  lemma ClearStoppingBalances(t: Tree)
    requires t.Composite? && Agree(t) && t.state.Deactivating?
    ensures Balanced(t, NOBODY, NOBODY, Clear(t).tree, Clear(t).log)
  {
    ClearStops(t);
    InactiveRunsNothing(t);
    EmptyComposite(t.sync);
    MultisetOfReverse(Stopping(t));
    FlowsIn(NOBODY);
    FlowsIn(multiset(Stopping(t)));
  }

  /** clear_children drops the children of an inactive composite without waiting for those that are
      still stopping. */
  lemma ClearBalances(t: Tree)
    requires t.Composite? && Agree(t)
    ensures var r := Clear(t);
      Balanced(t, NOBODY, NOBODY, r.tree, r.log) <==> (t.state.NotActive? ==> Stopping(t) == [])
  {
    if t.state.Active? {
      ClearActiveBalances(t);
    } else if t.state.Deactivating? {
      ClearStoppingBalances(t);
    } else {
      InactiveRunsNothing(t);
      EmptyComposite(t.sync);
      FlowsIn(NOBODY);
      NoneLeft(Stopping(t));
    }
  }

  lemma NoneLeft(ids: seq<int>)
    ensures Flows(multiset(ids), NOBODY, NOBODY, NOBODY, NOBODY) <==> ids == []
  {
    if ids != [] {
      assert ids[0] in multiset(ids);
      assert multiset(ids)[ids[0]] > 0;
      assert (NOBODY + NOBODY)[ids[0]] == 0;
    }
  }

  lemma EmptyComposite(sync: bool)
    ensures var t := Composite(NotActive, sync, []);
      && Running(t) == NOBODY && Stopping(t) == []
      && Balanced(t, NOBODY, NOBODY, t, NOTHING)
    ensures NOTHING.Started() == NOTHING.Stopped() == NOTHING.Joined() == []
  {
    FlowsIn(NOBODY);
  }

  lemma {:induction false} PutInFront(ts: seq<Tree>, child: Tree)
    ensures RunningIn([child] + ts) == Running(child) + RunningIn(ts)
    ensures multiset(StoppingOf([child] + ts)) == multiset(Stopping(child)) + multiset(StoppingOf(ts))
    decreases ts
  {
    if ts == [] {
      assert [child] + ts == [child] && Front([child]) == [];
    } else {
      assert Front([child] + ts) == [child] + Front(ts) && Last([child] + ts) == Last(ts);
      PutInFront(Front(ts), child);
    }
  }

  lemma InsertCounts(t: Tree, child: Tree, toHead: bool)
    requires t.Composite?
    ensures var r := t.(children := Insert(t.children, child, toHead));
      && Running(r) == Running(t) + Running(child)
      && multiset(Stopping(r)) == multiset(Stopping(t)) + multiset(Stopping(child))
  {
    PutInFront(t.children, child);
    FrontOfAppend(t.children, child);
  }

  /** Before it is inserted the child itself is balanced. */
  lemma BringBalances(t: Tree, child: Tree, toHead: bool, failing: set<int>)
    requires t.Composite? && Agree(child)
    ensures var r := AddChild(t, child, toHead, failing); Balanced(child, NOBODY, NOBODY, r.child, r.log)
  {
    var r := AddChild(t, child, toHead, failing);
    AddBrings(t, child, toHead, failing);
    if t.state.Active? && !child.state.Active? {
      ActivateBalances(child, failing);
    } else if !t.state.Active? && child.state.Active? {
      ActiveRunsAll(child);
      RestingHasNone(child);
      MultisetOfReverse(Leaves(child));
      FlowsIn(multiset(Leaves(child)));
      FlowsThrough(NOBODY, multiset(Leaves(child)));
    } else {
      FlowsIn(Running(child));
      FlowsIn(multiset(Stopping(child)));
    }
  }

  /** A child that is refused is as it was, and one that is accepted brings what was running or stopping
      in it. */
  lemma AddBalances(t: Tree, child: Tree, toHead: bool, failing: set<int>)
    requires t.Composite? && Agree(child)
    ensures var r := AddChild(t, child, toHead, failing);
      if r.ok then Balanced(t, Running(child), multiset(Stopping(child)), r.tree, r.log)
      else r.child == child && Balanced(t, NOBODY, NOBODY, r.tree, r.log)
  {
    var r := AddChild(t, child, toHead, failing);
    BringBalances(t, child, toHead, failing);
    if r.ok {
      InsertCounts(t, r.child, toHead);
      var log := r.log;
      FlowsBeside(Running(t), Running(child), multiset(log.Started()), Running(r.child), multiset(log.Stopped()));
      FlowsBeside(multiset(Stopping(t)), multiset(Stopping(child)), multiset(log.Stopped()),
                  multiset(Stopping(r.child)), multiset(log.Joined()));
    } else {
      AddBrings(t, child, toHead, failing);
      UndoneBalances(t, r.log);
    }
  }

  function LogOf(t: Tree, call: Call): Log
    requires t.Composite?
  {
    match call
    case CallActivate(failing) => Activate(t, failing).log
    case CallDeactivate => Deactivate(t).log
    case CallWait => Wait(t).log
    case CallAdd(child, toHead, starting) => AddChild(t, child, toHead, starting).log
    case CallClear => Clear(t).log
  }

  predicate Accepts(t: Tree, call: Call)
    requires t.Composite?
  {
    call.CallAdd? && AddChild(t, call.child, call.toHead, call.starting).ok
  }

  /** A call on a composite forgets no leaf, with exactly one exception: clearing an inactive composite
      some of whose leaves are still stopping. */
  lemma CallBalances(t: Tree, call: Call)
    requires t.Composite? && Agree(t) && Allowed(t, call)
    ensures var running := if Accepts(t, call) then Running(call.child) else NOBODY;
      var stopping := if Accepts(t, call) then multiset(Stopping(call.child)) else NOBODY;
      Balanced(t, running, stopping, After(t, call), LogOf(t, call))
      <==> !(call.CallClear? && t.state.NotActive? && Stopping(t) != [])
  {
    match call
    case CallActivate(failing) => ActivateBalances(t, failing);
    case CallDeactivate => DeactivateBalances(t);
    case CallWait => WaitBalances(t);
    case CallAdd(child, toHead, starting) => AddBalances(t, child, toHead, starting);
    case CallClear => ClearBalances(t);
  }

  function History(states: seq<Tree>, calls: seq<Call>, n: nat): Log
    requires IsRun(states, calls) && n < |states|
  {
    if n == 0 then NOTHING else
    assert Called(states, calls, n - 1);
    History(states, calls, n - 1).Then(LogOf(states[n - 1], calls[n - 1]))
  }

  /** The accepted children that were running, and the leaves that were stopping in them. */
  function BroughtRunning(states: seq<Tree>, calls: seq<Call>, n: nat): multiset<int>
    requires IsRun(states, calls) && n < |states|
  {
    if n == 0 then NOBODY else
    assert Called(states, calls, n - 1);
    BroughtRunning(states, calls, n - 1) +
      if Accepts(states[n - 1], calls[n - 1]) then Running(calls[n - 1].child) else NOBODY
  }

  function BroughtStopping(states: seq<Tree>, calls: seq<Call>, n: nat): multiset<int>
    requires IsRun(states, calls) && n < |states|
  {
    if n == 0 then NOBODY else
    assert Called(states, calls, n - 1);
    BroughtStopping(states, calls, n - 1) +
      if Accepts(states[n - 1], calls[n - 1]) then multiset(Stopping(calls[n - 1].child)) else NOBODY
  }

  lemma BalanceAdds(t: Tree, r: multiset<int>, s: multiset<int>, t': Tree, log: Log,
                    r': multiset<int>, s': multiset<int>, t'': Tree, log': Log)
    requires Balanced(t, r, s, t', log) && Balanced(t', r', s', t'', log')
    ensures Balanced(t, r + r', s + s', t'', log.Then(log'))
  {
    JoinedOf(log.Started(), log'.Started());
    JoinedOf(log.Stopped(), log'.Stopped());
    JoinedOf(log.Joined(), log'.Joined());
    FlowsOn(Running(t), r, multiset(log.Started()), Running(t'), multiset(log.Stopped()),
            r', multiset(log'.Started()), Running(t''), multiset(log'.Stopped()));
    FlowsOn(multiset(Stopping(t)), s, multiset(log.Stopped()), multiset(Stopping(t')), multiset(log.Joined()),
            s', multiset(log'.Stopped()), multiset(Stopping(t'')), multiset(log'.Joined()));
  }

  /** The run never clears an inactive composite with leaves that are still stopping. */
  predicate NeverDrops(states: seq<Tree>, calls: seq<Call>, n: nat)
    requires n <= |calls| < |states|
  {
    forall k :: 0 <= k < n ==> !(calls[k].CallClear? && states[k].state.NotActive? && Stopping(states[k]) != [])
  }

  predicate BalancedAt(states: seq<Tree>, calls: seq<Call>, n: nat)
    requires IsRun(states, calls) && n < |states|
  {
    Balanced(states[0], BroughtRunning(states, calls, n), BroughtStopping(states, calls, n),
             states[n], History(states, calls, n))
  }

  lemma {:induction false} RunBalances(states: seq<Tree>, calls: seq<Call>, n: nat)
    requires IsRun(states, calls) && n < |states| && NeverDrops(states, calls, n)
    ensures BalancedAt(states, calls, n)
    decreases n
  {
    if n == 0 {
      RunStartsBalanced(states, calls);
    } else {
      var k := n - 1;
      RunBalances(states, calls, k);
      AgreementOverRuns(states, calls, k);
      RunBalanceStep(states, calls, k);
    }
  }

  /** No leaf is forgotten over such a run: the leaves started, or running when they were added, are
      those that run now and those that were told to stop; and the latter, with those added while
      stopping, are the ones still stopping and the ones waited for. */
  lemma NoLeafIsForgotten(states: seq<Tree>, calls: seq<Call>, n: nat)
    requires IsRun(states, calls) && n < |states| && NeverDrops(states, calls, n)
    ensures var log := History(states, calls, n);
      && Running(states[n]) + multiset(log.Stopped())
         == BroughtRunning(states, calls, n) + multiset(log.Started())
      && multiset(Stopping(states[n])) + multiset(log.Joined())
         == BroughtStopping(states, calls, n) + multiset(log.Stopped())
  {
    RunBalances(states, calls, n);
    RunStartsBalanced(states, calls);
    FromNothing(BroughtRunning(states, calls, n));
    FromNothing(BroughtStopping(states, calls, n));
  }

  lemma FromNothing(a: multiset<int>)
    ensures NOBODY + a == a
  {
  }

  lemma RunStartsBalanced(states: seq<Tree>, calls: seq<Call>)
    requires IsRun(states, calls)
    ensures Running(states[0]) == multiset{} && Stopping(states[0]) == []
    ensures BalancedAt(states, calls, 0)
  {
    EmptyComposite(states[0].sync);
    assert states[0] == Composite(NotActive, states[0].sync, []);
  }

  lemma RunBalanceStep(states: seq<Tree>, calls: seq<Call>, n: nat)
    requires IsRun(states, calls) && n < |calls| && Agree(states[n])
    requires !(calls[n].CallClear? && states[n].state.NotActive? && Stopping(states[n]) != [])
    requires BalancedAt(states, calls, n)
    ensures BalancedAt(states, calls, n + 1)
  {
    assert Called(states, calls, n);
    var t, call := states[n], calls[n];
    CallBalances(t, call);
    BalanceAdds(states[0], BroughtRunning(states, calls, n), BroughtStopping(states, calls, n), t,
                History(states, calls, n),
                if Accepts(t, call) then Running(call.child) else NOBODY,
                if Accepts(t, call) then multiset(Stopping(call.child)) else NOBODY,
                states[n + 1], LogOf(t, call));
  }

  // ----- the documented agreement: active together or inactive together -----

  /** Also, below an inactive composite everything is inactive. */
  predicate AgreeFully(t: Tree) {
    && Agree(t)
    && (t.Composite? ==>
          && (forall k :: 0 <= k < |t.children| ==> AgreeFully(t.children[k]))
          && (t.state.NotActive? ==> forall k :: 0 <= k < |t.children| ==> t.children[k].state.NotActive?))
  }

  predicate AllAgreeFully(ts: seq<Tree>) {
    forall k :: 0 <= k < |ts| ==> AgreeFully(ts[k])
  }

  lemma {:induction false} UniformAgreesFully(t: Tree, state: State)
    requires !state.Deactivating?
    ensures AgreeFully(Set(t, state))
    decreases t
  {
    if t.Composite? {
      forall k | 0 <= k < |t.children| ensures AgreeFully(SetAll(t.children, state)[k]) {
        UniformAgreesFully(t.children[k], state);
      }
    }
  }

  lemma {:induction false} FullyInactiveIsIdle(t: Tree)
    requires AgreeFully(t) && t.state.NotActive?
    ensures Idle(t)
    decreases t
  {
    if t.Composite? {
      forall k | 0 <= k < |t.children| ensures t.children[k] == SetAll(t.children, NotActive)[k] {
        FullyInactiveIsIdle(t.children[k]);
      }
      assert t.children == SetAll(t.children, NotActive);
    }
  }

  lemma {:induction false} DeactivateAgreesFully(t: Tree)
    requires AgreeFully(t)
    ensures AgreeFully(Deactivate(t).tree)
    decreases t, 0
  {
    if t.Composite? && t.state.Active? {
      DeactivateAllAgreesFully(t.children, t.sync);
      DeactivateAllStops(t.children, t.sync);
    }
  }

  lemma {:induction false} DeactivateAllAgreesFully(ts: seq<Tree>, sync: bool)
    requires AllAgreeFully(ts)
    ensures AllAgreeFully(DeactivateAll(ts, sync).trees)
    decreases ts
  {
    if ts != [] {
      StopChildAgreesFully(Last(ts), sync);
      DeactivateAllAgreesFully(Front(ts), sync);
    }
  }

  lemma StopChildAgreesFully(t: Tree, sync: bool)
    requires AgreeFully(t)
    ensures AgreeFully(StopChild(t, sync).tree)
    decreases t, 1
  {
    DeactivateAgreesFully(t);
    if sync {
      var d := Deactivate(t).tree;
      DeactivateAgrees(t);
      WaitRests(d);
      UniformAgreesFully(d, NotActive);
    }
  }

  /** A child that is being stopped is added to an inactive composite as it is. */
  predicate TakesStoppingChild(t: Tree, call: Call) {
    call.CallAdd? && t.state.NotActive? && call.child.state.Deactivating?
  }

  lemma InsertAgreesFully(t: Tree, child: Tree, toHead: bool)
    requires t.Composite? && AgreeFully(t) && AgreeFully(child)
    requires child.state.Active? <==> t.state.Active?
    ensures AgreeFully(t.(children := Insert(t.children, child, toHead)))
       <==> (t.state.NotActive? ==> child.state.NotActive?)
  {
    InsertAgrees(t, child, toHead);
    InsertAll(t.children, child, toHead, u => AgreeFully(u));
    if t.state.NotActive? && child.state.NotActive? {
      InsertAll(t.children, child, toHead, (u: Tree) => u.state.NotActive?);
    }
    assert Insert(t.children, child, toHead)[if toHead then 0 else |t.children|] == child;
  }

  lemma BroughtChild(t: Tree, child: Tree, toHead: bool, failing: set<int>)
    requires t.Composite? && AgreeFully(t) && AgreeFully(child)
    ensures var r := AddChild(t, child, toHead, failing);
      && AgreeFully(r.child)
      && (r.ok ==> (r.child.state.Active? <==> t.state.Active?))
      && (t.state.NotActive? ==> r.ok && (r.child.state.Deactivating? <==> child.state.Deactivating?))
  {
    if t.state.Active? {
      if !child.state.Active? {
        ActivateAllOrNothing(child, failing);
        UniformAgreesFully(child, Active);
      }
    } else if child.state.Active? {
      var d := Deactivate(child).tree;
      DeactivateAgrees(child);
      WaitRests(d);
      UniformAgreesFully(d, NotActive);
    }
  }

  /** Every call keeps the documented agreement, with exactly one exception: adding a child that is
      still being stopped to an inactive composite. */
  lemma CallKeepsFullAgreement(t: Tree, call: Call)
    requires t.Composite? && AgreeFully(t) && Allowed(t, call)
    requires call.CallAdd? ==> AgreeFully(call.child)
    ensures AgreeFully(After(t, call)) <==> !TakesStoppingChild(t, call)
  {
    match call
    case CallActivate(failing) =>
      ActivateAllOrNothing(t, failing);
      UniformAgreesFully(t, Active);
    case CallDeactivate => DeactivateAgreesFully(t);
    case CallWait =>
      WaitRests(t);
      UniformAgreesFully(t, NotActive);
    case CallAdd(child, toHead, starting) =>
      BroughtChild(t, child, toHead, starting);
      var r := AddChild(t, child, toHead, starting);
      if r.ok {
        InsertAgreesFully(t, r.child, toHead);
      }
    case CallClear =>
  }

  // The exception at its smallest.
  const EMPTY := Composite(NotActive, false, [])
  const STOPPING_LEAF := Leaf(Deactivating, 0)
  const ADD_IT := CallAdd(STOPPING_LEAF, false, {})
  const HOLDS_IT := Composite(NotActive, false, [STOPPING_LEAF])

  lemma StoppingLeafIsAdded()
    ensures Allowed(EMPTY, ADD_IT) && After(EMPTY, ADD_IT) == HOLDS_IT
    ensures AgreeFully(EMPTY) && Agree(HOLDS_IT)
  {
  }

  lemma NotIdle()
    ensures !Idle(HOLDS_IT) && !AgreeFully(HOLDS_IT)
  {
    assert HOLDS_IT.children[0] == STOPPING_LEAF;
    assert SetAll(HOLDS_IT.children, NotActive)[0].state.NotActive?;
  }

  /** An empty inactive composite takes a leaf that is being stopped, and cannot be started afterwards
      although no leaf refuses. */
  lemma StoppingChildBreaksAgreement()
    ensures AgreeFully(EMPTY) && After(EMPTY, ADD_IT) == HOLDS_IT && Agree(HOLDS_IT)
    ensures !AgreeFully(HOLDS_IT) && !Activate(HOLDS_IT, {}).ok
  {
    StoppingLeafIsAdded();
    NotIdle();
    ActivateAllOrNothing(HOLDS_IT, {});
  }

  /** And clearing the composite then forgets the leaf: nobody waits for it. */
  lemma ClearForgetsStoppingChild()
    ensures After(EMPTY, ADD_IT) == HOLDS_IT && Stopping(HOLDS_IT) == [0]
    ensures LogOf(HOLDS_IT, CallClear) == NOTHING && Stopping(After(HOLDS_IT, CallClear)) == []
  {
    StoppingLeafIsAdded();
    assert Front([STOPPING_LEAF]) == [];
  }

  /** Hence, in a run that takes no such child, an inactive composite can always be started again
      unless a leaf refuses, and nothing is stopping in it that clearing it would forget. */
  lemma {:induction false} StartsAgain(states: seq<Tree>, calls: seq<Call>, n: nat, failing: set<int>)
    requires IsRun(states, calls) && n < |states|
    requires forall k :: 0 <= k < |calls| && calls[k].CallAdd? ==> AgreeFully(calls[k].child)
    requires forall k :: 0 <= k < n ==> !TakesStoppingChild(states[k], calls[k])
    ensures AgreeFully(states[n])
    ensures states[n].state.NotActive? ==> Stopping(states[n]) == []
    ensures states[n].state.NotActive? ==>
      (Activate(states[n], failing).ok <==> CanStart(Leaves(states[n]), failing))
    decreases n
  {
    if n > 0 {
      StartsAgain(states, calls, n - 1, failing);
      assert Called(states, calls, n - 1);
      CallKeepsFullAgreement(states[n - 1], calls[n - 1]);
    }
    if states[n].state.NotActive? {
      FullyInactiveIsIdle(states[n]);
      IdleAgrees(states[n]);
      ActivateAllOrNothing(states[n], failing);
    }
  }
}
