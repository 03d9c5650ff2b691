/** Activation of a tree of active objects: SimpleActiveObject leaves under
    CompositeActiveObject nodes, with rollback when a child cannot be started and shutdown in
    reverse order. */
module CompositeActivation {

  /** AS_NOT_ACTIVE, AS_ACTIVE, AS_DEACTIVATING. */
  datatype State = NotActive | Active | Deactivating

  datatype Tree =
    | Leaf(state: State, id: int)
    | Composite(state: State, sync: bool, children: seq<Tree>)

  /** A leaf is started, told to stop, or seen stopped by a wait. */
  datatype Kind = Start | Stop | Join
  datatype Event = Event(kind: Kind, id: int)

  function Ids(events: seq<Event>, kind: Kind): seq<int> {
    if events == [] then [] else (if events[0].kind == kind then [events[0].id] else []) + Ids(events[1..], kind)
  }

  lemma {:induction false} IdsConcat(a: seq<Event>, b: seq<Event>, kind: Kind)
    ensures Ids(a + b, kind) == Ids(a, kind) + Ids(b, kind)
    decreases |a|
  {
    if a == [] {
      assert a + b == b;
    } else {
      assert (a + b)[0] == a[0] && (a + b)[1..] == a[1..] + b;
      IdsConcat(a[1..], b, kind);
      Assoc(if a[0].kind == kind then [a[0].id] else [], Ids(a[1..], kind), Ids(b, kind));
    }
  }

  /** What happened to the leaves of a tree, in order. */
  datatype Log = Log(events: seq<Event>) {
    function Started(): seq<int> { Ids(events, Start) }

    function Stopped(): seq<int> { Ids(events, Stop) }

    function Joined(): seq<int> { Ids(events, Join) }

    function Then(next: Log): (r: Log)
      ensures r.Started() == Started() + next.Started()
      ensures r.Stopped() == Stopped() + next.Stopped()
      ensures r.Joined() == Joined() + next.Joined()
    {
      IdsConcat(events, next.events, Start);
      IdsConcat(events, next.events, Stop);
      IdsConcat(events, next.events, Join);
      Log(events + next.events)
    }
  }

  const NOTHING := Log([])

  function Events(kind: Kind, ids: seq<int>): seq<Event> {
    seq(|ids|, k requires 0 <= k < |ids| => Event(kind, ids[k]))
  }

  lemma {:induction false} IdsOfEvents(kind: Kind, ids: seq<int>, other: Kind)
    ensures Ids(Events(kind, ids), other) == if other == kind then ids else []
    decreases |ids|
  {
    if ids != [] {
      assert Events(kind, ids)[1..] == Events(kind, ids[1..]);
      IdsOfEvents(kind, ids[1..], other);
    }
  }

  /** The same happened to some leaves, one after the other. */
  function Each(kind: Kind, ids: seq<int>): (r: Log)
    ensures r.Started() == if kind.Start? then ids else []
    ensures r.Stopped() == if kind.Stop? then ids else []
    ensures r.Joined() == if kind.Join? then ids else []
  {
    IdsOfEvents(kind, ids, Start);
    IdsOfEvents(kind, ids, Stop);
    IdsOfEvents(kind, ids, Join);
    Log(Events(kind, ids))
  }

  datatype Outcome = Outcome(tree: Tree, log: Log)
  datatype Outcomes = Outcomes(trees: seq<Tree>, log: Log)

  function Last<T>(s: seq<T>): T
    requires s != []
  {
    s[|s| - 1]
  }

  function Front<T>(s: seq<T>): seq<T>
    requires s != []
  {
    s[..|s| - 1]
  }

  function Reverse<T>(s: seq<T>): seq<T> {
    if s == [] then [] else [Last(s)] + Reverse(Front(s))
  }

  // ----- the operations -----

  /** wait_object for an object it does not block on: children first, last added first. */
  function Wait(t: Tree): Outcome {
    match t
    case Leaf(state, id) =>
      if state.Deactivating? then Outcome(Leaf(NotActive, id), Each(Join, [id]))
      else Outcome(t, NOTHING)
    case Composite(state, sync, children) =>
      if state.Active? then Outcome(t, NOTHING)
      else
        var r := WaitAll(children);
        Outcome(Composite(NotActive, sync, r.trees), r.log)
  }

  function WaitAll(ts: seq<Tree>): (r: Outcomes)
    ensures |r.trees| == |ts|
  {
    if ts == [] then Outcomes([], NOTHING)
    else
      var last := Wait(Last(ts));
      var rest := WaitAll(Front(ts));
      Outcomes(rest.trees + [last.tree], last.log.Then(rest.log))
  }

  /** wait_object does not return while its object, or one it waits for, is active. */
  predicate Blocks(t: Tree) {
    t.state.Active? || (t.Composite? && exists k :: 0 <= k < |t.children| && Blocks(t.children[k]))
  }

  function Deactivate(t: Tree): Outcome
    decreases t, 0
  {
    if !t.state.Active? then Outcome(t, NOTHING)
    else match t
      case Leaf(_, id) => Outcome(Leaf(Deactivating, id), Each(Stop, [id]))
      case Composite(_, sync, children) =>
        var r := DeactivateAll(children, sync);
        Outcome(Composite(Deactivating, sync, r.trees), r.log)
  }

  /** deactivate_object_ of a composite: last added first; a synchronous one waits for each. */
  function DeactivateAll(ts: seq<Tree>, sync: bool): (r: Outcomes)
    ensures |r.trees| == |ts|
  {
    if ts == [] then Outcomes([], NOTHING)
    else
      var last := StopChild(Last(ts), sync);
      var rest := DeactivateAll(Front(ts), sync);
      Outcomes(rest.trees + [last.tree], last.log.Then(rest.log))
  }

  function StopChild(t: Tree, sync: bool): Outcome
    decreases t, 1
  {
    var d := Deactivate(t);
    if sync then var w := Wait(d.tree); Outcome(w.tree, d.log.Then(w.log)) else d
  }

  /** The rollback, and clear_children: stop all, then wait for all. */
  function ShutDown(ts: seq<Tree>, sync: bool): (r: Outcomes)
    ensures |r.trees| == |ts|
  {
    var d := DeactivateAll(ts, sync);
    var w := WaitAll(d.trees);
    Outcomes(w.trees, d.log.Then(w.log))
  }

  datatype Activation = Activation(ok: bool, tree: Tree, log: Log)
  datatype Activations = Activations(count: nat, trees: seq<Tree>, log: Log)

  /** activate_object; `failing` are the leaves that cannot be started now. */
  function Activate(t: Tree, failing: set<int>): Activation {
    if !t.state.NotActive? then Activation(false, t, NOTHING)
    else match t
      case Leaf(_, id) =>
        if id in failing then Activation(false, t, NOTHING)
        else Activation(true, Leaf(Active, id), Each(Start, [id]))
      case Composite(_, sync, children) =>
        var r := ActivateAll(children, failing);
        if r.count == |children| then Activation(true, Composite(Active, sync, r.trees), r.log)
        else
          var undone := ShutDown(r.trees[..r.count], sync);
          Activation(false, Composite(NotActive, sync, undone.trees + r.trees[r.count..]),
                     r.log.Then(undone.log))
  }

  /** Start children in order up to the first failure; `count` of them succeeded. */
  function ActivateAll(ts: seq<Tree>, failing: set<int>): (r: Activations)
    ensures |r.trees| == |ts| && r.count <= |ts|
  {
    if ts == [] then Activations(0, [], NOTHING)
    else
      var rest := ActivateAll(Front(ts), failing);
      if rest.count < |ts| - 1 then Activations(rest.count, rest.trees + [Last(ts)], rest.log)
      else
        var last := Activate(Last(ts), failing);
        Activations(if last.ok then |ts| else |ts| - 1, rest.trees + [last.tree],
                    rest.log.Then(last.log))
  }

  // ----- agreement -----

  /** A composite is active exactly when it may be used, and then all its children are; otherwise
      none of them is. */
  predicate Agree(t: Tree) {
    t.Composite? ==>
      && (forall k :: 0 <= k < |t.children| ==> Agree(t.children[k]))
      && (forall k :: 0 <= k < |t.children| ==> (t.children[k].state.Active? <==> t.state.Active?))
  }

  predicate AllAgree(ts: seq<Tree>) {
    forall k :: 0 <= k < |ts| ==> Agree(ts[k])
  }

  predicate NoneActive(ts: seq<Tree>) {
    forall k :: 0 <= k < |ts| ==> !ts[k].state.Active?
  }

  /** The same tree with every object in one state. */
  function Set(t: Tree, state: State): (r: Tree)
    ensures r.state == state && (r.Composite? <==> t.Composite?)
  {
    match t
    case Leaf(_, id) => Leaf(state, id)
    case Composite(_, sync, children) => Composite(state, sync, SetAll(children, state))
  }

  function SetAll(ts: seq<Tree>, state: State): (r: seq<Tree>)
    ensures |r| == |ts| && forall k :: 0 <= k < |ts| ==> r[k] == Set(ts[k], state)
  {
    if ts == [] then [] else SetAll(Front(ts), state) + [Set(Last(ts), state)]
  }

  predicate Idle(t: Tree) { t == Set(t, NotActive) }

  predicate AllIdle(ts: seq<Tree>) {
    forall k :: 0 <= k < |ts| ==> Idle(ts[k])
  }

  /** The leaves in insertion order. */
  function Leaves(t: Tree): seq<int> {
    match t
    case Leaf(_, id) => [id]
    case Composite(_, _, children) => LeavesOf(children)
  }

  function LeavesOf(ts: seq<Tree>): seq<int> {
    if ts == [] then [] else LeavesOf(Front(ts)) + Leaves(Last(ts))
  }

  // ----- logs -----

  lemma ThenAssoc(a: Log, b: Log, c: Log)
    ensures a.Then(b).Then(c) == a.Then(b.Then(c))
  {
  }

  lemma EachConcat(kind: Kind, a: seq<int>, b: seq<int>)
    ensures Each(kind, a).Then(Each(kind, b)) == Each(kind, a + b)
  {
    assert Events(kind, a) + Events(kind, b) == Events(kind, a + b);
  }

  lemma EachInReverse(kind: Kind, a: seq<int>, b: seq<int>)
    ensures Each(kind, Reverse(b)).Then(Each(kind, Reverse(a))) == Each(kind, Reverse(a + b))
    ensures Each(kind, Reverse([])) == NOTHING
  {
    ReverseConcat(a, b);
    EachConcat(kind, Reverse(b), Reverse(a));
    assert Events(kind, []) == [];
  }

  lemma ThenNothing(a: Log)
    ensures a.Then(NOTHING) == a && NOTHING.Then(a) == a
  {
  }

  lemma {:induction false} ReverseConcat<T>(a: seq<T>, b: seq<T>)
    ensures Reverse(a + b) == Reverse(b) + Reverse(a)
    decreases |b|
  {
    if b == [] {
      assert a + b == a;
    } else {
      assert Last(a + b) == Last(b) && Front(a + b) == a + Front(b);
      ReverseConcat(a, Front(b));
    }
  }

  lemma ReverseOne<T>(x: T)
    ensures Reverse([x]) == [x]
  {
  }

  // ----- waiting -----

  /** In a tree that agrees, waiting for an object blocks exactly when the object is active. */
  lemma {:induction false} WaitDoesNotBlock(t: Tree)
    requires Agree(t)
    ensures Blocks(t) <==> t.state.Active?
    decreases t
  {
    if t.Composite? && !t.state.Active? {
      forall k | 0 <= k < |t.children| ensures !Blocks(t.children[k]) {
        WaitDoesNotBlock(t.children[k]);
      }
    }
  }

  /** The leaves that were told to stop and not yet seen stopped, in insertion order. */
  function Stopping(t: Tree): seq<int> {
    match t
    case Leaf(state, id) => if state.Deactivating? then [id] else []
    case Composite(_, _, children) => StoppingOf(children)
  }

  function StoppingOf(ts: seq<Tree>): seq<int> {
    if ts == [] then [] else StoppingOf(Front(ts)) + Stopping(Last(ts))
  }

  /** It leaves every object of the tree inactive, having seen the stopping leaves stop, last added
      first. */
  lemma {:induction false} WaitRests(t: Tree)
    requires Agree(t) && !t.state.Active?
    ensures Wait(t).tree == Set(t, NotActive)
    ensures Wait(t).log == Each(Join, Reverse(Stopping(t)))
    decreases t
  {
    match t
    case Leaf(state, id) => ReverseOne(id);
    case Composite(_, _, children) => WaitAllRests(children);
  }

  lemma {:induction false} WaitAllRests(ts: seq<Tree>)
    requires AllAgree(ts) && NoneActive(ts)
    ensures WaitAll(ts).trees == SetAll(ts, NotActive)
    ensures WaitAll(ts).log == Each(Join, Reverse(StoppingOf(ts)))
    decreases ts
  {
    if ts != [] {
      WaitRests(Last(ts));
      WaitAllRests(Front(ts));
      EachInReverse(Join, StoppingOf(Front(ts)), Stopping(Last(ts)));
    }
  }

  lemma {:induction false} IdleAgrees(t: Tree)
    requires Idle(t)
    ensures Agree(t) && t.state.NotActive? && Stopping(t) == []
    decreases t
  {
    if t.Composite? {
      forall k | 0 <= k < |t.children| ensures Agree(t.children[k]) && t.children[k].state.NotActive? {
        assert t.children[k] == SetAll(t.children, NotActive)[k];
        IdleAgrees(t.children[k]);
      }
      assert AllIdle(t.children) by {
        assert forall k :: 0 <= k < |t.children| ==> t.children[k] == SetAll(t.children, NotActive)[k];
      }
      NothingStopping(t.children);
    }
  }

  lemma {:induction false} NothingStopping(ts: seq<Tree>)
    requires AllIdle(ts)
    ensures StoppingOf(ts) == []
    decreases ts
  {
    if ts != [] {
      IdleAgrees(Last(ts));
      NothingStopping(Front(ts));
    }
  }

  // ----- shutting down -----

  predicate AllActive(ts: seq<Tree>) {
    forall k :: 0 <= k < |ts| ==> ts[k].state.Active?
  }

  lemma {:induction false} MultisetOfReverse<T>(s: seq<T>)
    ensures multiset(Reverse(s)) == multiset(s)
    decreases |s|
  {
    if s != [] {
      MultisetOfReverse(Front(s));
      assert s == Front(s) + [Last(s)];
    }
  }

  lemma {:induction false} SetTwice(t: Tree, a: State, b: State)
    ensures Set(Set(t, a), b) == Set(t, b)
    decreases t
  {
    if t.Composite? {
      forall k | 0 <= k < |t.children|
        ensures SetAll(SetAll(t.children, a), b)[k] == SetAll(t.children, b)[k]
      {
        SetTwice(t.children[k], a, b);
      }
      assert SetAll(SetAll(t.children, a), b) == SetAll(t.children, b);
    }
  }

  /** What telling the active tree `t` to stop must give. */
  predicate Stopped(t: Tree, d: Outcome) {
    && Agree(d.tree) && !d.tree.state.Active?
    && Set(d.tree, NotActive) == Set(t, NotActive)
    && d.log.Started() == [] && d.log.Stopped() == Reverse(Leaves(t))
    && multiset(d.log.Joined() + Stopping(d.tree)) == multiset(Leaves(t))
  }

  predicate AllStopped(ts: seq<Tree>, d: Outcomes) {
    && AllAgree(d.trees) && NoneActive(d.trees)
    && SetAll(d.trees, NotActive) == SetAll(ts, NotActive)
    && d.log.Started() == [] && d.log.Stopped() == Reverse(LeavesOf(ts))
    && multiset(d.log.Joined() + StoppingOf(d.trees)) == multiset(LeavesOf(ts))
  }

  /** Deactivation tells every leaf to stop, last added first; what a synchronous composite has
      waited for and what is still stopping are together all the leaves. */
  lemma {:induction false} DeactivateStops(t: Tree)
    requires Agree(t) && t.state.Active?
    ensures Stopped(t, Deactivate(t)) && Deactivate(t).tree.state.Deactivating?
    decreases t, 0
  {
    match t
    case Leaf(_, id) => ReverseOne(id);
    case Composite(_, sync, children) => DeactivateAllStops(children, sync);
  }

  lemma StopChildStops(t: Tree, sync: bool)
    requires Agree(t) && t.state.Active?
    ensures Stopped(t, StopChild(t, sync))
    decreases t, 1
  {
    DeactivateStops(t);
    if sync {
      var d := Deactivate(t);
      WaitStopped(t, d);
    }
  }

  lemma WaitStopped(t: Tree, d: Outcome)
    requires Stopped(t, d)
    ensures Stopped(t, Outcome(Wait(d.tree).tree, d.log.Then(Wait(d.tree).log)))
    ensures Wait(d.tree).tree == Set(t, NotActive)
  {
    WaitRests(d.tree);
    SetTwice(t, NotActive, NotActive);
    IdleAgrees(Set(t, NotActive));
    MultisetOfReverse(Stopping(d.tree));
  }

  lemma {:induction false} DeactivateAllStops(ts: seq<Tree>, sync: bool)
    requires AllAgree(ts) && AllActive(ts)
    ensures AllStopped(ts, DeactivateAll(ts, sync))
    decreases ts
  {
    if ts != [] {
      StopChildStops(Last(ts), sync);
      DeactivateAllStops(Front(ts), sync);
      StoppedStep(ts, StopChild(Last(ts), sync), DeactivateAll(Front(ts), sync));
    }
  }

  lemma StoppedAgree(rest: seq<Tree>, last: Tree)
    requires AllAgree(rest) && NoneActive(rest) && Agree(last) && !last.state.Active?
    ensures AllAgree(rest + [last]) && NoneActive(rest + [last])
  {
    InsertAll(rest, last, false, u => Agree(u));
    InsertAll(rest, last, false, (u: Tree) => !u.state.Active?);
  }

  lemma StoppedSame(ts: seq<Tree>, last: Tree, rest: seq<Tree>)
    requires ts != [] && Set(last, NotActive) == Set(Last(ts), NotActive)
    requires SetAll(rest, NotActive) == SetAll(Front(ts), NotActive)
    ensures SetAll(rest + [last], NotActive) == SetAll(ts, NotActive)
  {
    SetAllAppend(rest, last, NotActive);
  }

  lemma SetAllAppend(ts: seq<Tree>, t: Tree, state: State)
    ensures SetAll(ts + [t], state) == SetAll(ts, state) + [Set(t, state)]
  {
    FrontOfAppend(ts, t);
  }

  lemma FrontOfAppend<T>(s: seq<T>, x: T)
    ensures Front(s + [x]) == s && Last(s + [x]) == x
  {
  }

  lemma StoppedStep(ts: seq<Tree>, last: Outcome, rest: Outcomes)
    requires ts != [] && Stopped(Last(ts), last) && AllStopped(Front(ts), rest)
    ensures AllStopped(ts, Outcomes(rest.trees + [last.tree], last.log.Then(rest.log)))
  {
    StoppedAgree(rest.trees, last.tree);
    StoppedSame(ts, last.tree, rest.trees);
    FrontOfAppend(rest.trees, last.tree);
    ReverseConcat(LeavesOf(Front(ts)), Leaves(Last(ts)));
    MultisetOfSum(last.log.Joined(), Stopping(last.tree), rest.log.Joined(), StoppingOf(rest.trees));
  }

  lemma MultisetOfSum<T>(a: seq<T>, b: seq<T>, c: seq<T>, d: seq<T>)
    ensures multiset((a + c) + (d + b)) == multiset(a + b) + multiset(c + d)
  {
  }

  /** Stopping all of a list and then waiting for all of it leaves every object inactive; every leaf
      is told to stop in reverse order and waited for once. */
  lemma ShutDownRests(ts: seq<Tree>, sync: bool)
    requires AllAgree(ts) && AllActive(ts)
    ensures var r := ShutDown(ts, sync);
      && r.trees == SetAll(ts, NotActive)
      && r.log.Started() == [] && r.log.Stopped() == Reverse(LeavesOf(ts))
      && multiset(r.log.Joined()) == multiset(LeavesOf(ts))
  {
    DeactivateAllStops(ts, sync);
    RestAfterStop(ts, DeactivateAll(ts, sync));
  }

  lemma RestAfterStop(ts: seq<Tree>, d: Outcomes)
    requires AllStopped(ts, d)
    ensures WaitAll(d.trees).trees == SetAll(ts, NotActive)
    ensures var log := d.log.Then(WaitAll(d.trees).log);
      && log.Started() == [] && log.Stopped() == Reverse(LeavesOf(ts))
      && multiset(log.Joined()) == multiset(LeavesOf(ts))
  {
    var w := WaitAll(d.trees).log;
    WaitAllRests(d.trees);
    MultisetOfReverse(StoppingOf(d.trees));
    JoinedOf(d.log.Joined(), w.Joined());
    JoinedOf(d.log.Joined(), StoppingOf(d.trees));
    assert w.Started() == w.Stopped() == [];
    WholeOf(d.log.Stopped());
  }

  // ----- with and without waiting -----

  lemma {:induction false} LeavesSplit(ts: seq<Tree>, k: nat)
    requires k <= |ts|
    ensures LeavesOf(ts) == LeavesOf(ts[..k]) + LeavesOf(ts[k..])
    decreases ts
  {
    if k == |ts| {
      assert ts[..k] == ts && ts[k..] == [];
    } else {
      TakeOfFront(ts, k);
      LeavesSplit(Front(ts), k);
      FrontOfAppend(Front(ts)[k..], Last(ts));
      Assoc(LeavesOf(ts[..k]), LeavesOf(Front(ts)[k..]), Leaves(Last(ts)));
    }
  }

  /** A synchronous composite stops its children one by one: when the leaves of child k - 1 are told to
      stop, those of all later children have been told to stop and have been waited for. */
  lemma {:induction false} SyncWaitsForEach(ts: seq<Tree>, k: nat) returns (first: Log, later: Log)
    requires AllAgree(ts) && AllActive(ts) && k <= |ts|
    ensures DeactivateAll(ts, true).log == first.Then(later)
    ensures first.Stopped() == Reverse(LeavesOf(ts[k..])) && later.Stopped() == Reverse(LeavesOf(ts[..k]))
    ensures multiset(first.Joined()) == multiset(LeavesOf(ts[k..]))
    ensures multiset(later.Joined()) == multiset(LeavesOf(ts[..k]))
    ensures DeactivateAll(ts, true).trees == SetAll(ts, NotActive)
    decreases ts
  {
    if k == |ts| {
      WholeOf(ts);
      assert ts[k..] == [];
      SyncRests(ts);
      first, later := NOTHING, DeactivateAll(ts, true).log;
      ThenNothing(later);
    } else {
      var last, behind := StopChild(Last(ts), true).log, Front(ts)[k..];
      TakeOfFront(ts, k);
      ActiveFront(ts);
      first, later := SyncWaitsForEach(Front(ts), k);
      SyncChildRests(Last(ts));
      ThenAssoc(last, first, later);
      FrontOfAppend(behind, Last(ts));
      RestsBefore(LeavesOf(behind), Leaves(Last(ts)), first, last);
      first := last.Then(first);
    }
  }

  lemma ActiveFront(ts: seq<Tree>)
    requires ts != [] && AllAgree(ts) && AllActive(ts)
    ensures AllAgree(Front(ts)) && AllActive(Front(ts)) && Agree(Last(ts)) && Last(ts).state.Active?
  {
  }

  /** Stopped and waited for, last added first. */
  lemma RestsBefore(a: seq<int>, b: seq<int>, log: Log, last: Log)
    requires log.Stopped() == Reverse(a) && last.Stopped() == Reverse(b)
    requires multiset(log.Joined()) == multiset(a) && multiset(last.Joined()) == multiset(b)
    ensures last.Then(log).Stopped() == Reverse(a + b)
    ensures multiset(last.Then(log).Joined()) == multiset(a + b)
  {
    ReverseConcat(a, b);
    JoinedOf(last.Joined(), log.Joined());
  }

  lemma SyncChildRests(t: Tree)
    requires Agree(t) && t.state.Active?
    ensures var r := StopChild(t, true);
      && r.tree == Set(t, NotActive) && r.log.Stopped() == Reverse(Leaves(t))
      && multiset(r.log.Joined()) == multiset(Leaves(t))
  {
    DeactivateStops(t);
    StopChildStops(t, true);
    WaitStopped(t, Deactivate(t));
    SetTwice(t, NotActive, NotActive);
    IdleAgrees(Set(t, NotActive));
    assert StopChild(t, true).log.Joined() + [] == StopChild(t, true).log.Joined();
  }

  lemma {:induction false} SyncRests(ts: seq<Tree>)
    requires AllAgree(ts) && AllActive(ts)
    ensures var r := DeactivateAll(ts, true);
      && r.trees == SetAll(ts, NotActive) && r.log.Stopped() == Reverse(LeavesOf(ts))
      && multiset(r.log.Joined()) == multiset(LeavesOf(ts))
    decreases ts
  {
    if ts != [] {
      ActiveFront(ts);
      SyncChildRests(Last(ts));
      SyncRests(Front(ts));
      RestsBefore(LeavesOf(Front(ts)), Leaves(Last(ts)), DeactivateAll(Front(ts), true).log,
                  StopChild(Last(ts), true).log);
    }
  }

  /** No composite of the tree waits while it stops its children. */
  predicate NoSync(t: Tree) {
    t.Composite? ==> !t.sync && forall k :: 0 <= k < |t.children| ==> NoSync(t.children[k])
  }

  predicate NoneSync(ts: seq<Tree>) {
    forall k :: 0 <= k < |ts| ==> NoSync(ts[k])
  }

  /** Without synchronous composites deactivation waits for nobody: every object is left stopping. */
  lemma {:induction false} NoSyncStops(t: Tree)
    requires Agree(t) && t.state.Active? && NoSync(t)
    ensures Deactivate(t) == Outcome(Set(t, Deactivating), Each(Stop, Reverse(Leaves(t))))
    decreases t
  {
    match t
    case Leaf(_, id) => ReverseOne(id);
    case Composite(_, _, children) => NoSyncStopsAll(children);
  }

  lemma NoSyncStep(ts: seq<Tree>)
    requires ts != []
    requires Deactivate(Last(ts)) == Outcome(Set(Last(ts), Deactivating), Each(Stop, Reverse(Leaves(Last(ts)))))
    requires var f := Front(ts);
      DeactivateAll(f, false) == Outcomes(SetAll(f, Deactivating), Each(Stop, Reverse(LeavesOf(f))))
    ensures DeactivateAll(ts, false) == Outcomes(SetAll(ts, Deactivating), Each(Stop, Reverse(LeavesOf(ts))))
  {
    EachInReverse(Stop, LeavesOf(Front(ts)), Leaves(Last(ts)));
  }

  lemma EmptyStops()
    ensures DeactivateAll([], false) == Outcomes(SetAll([], Deactivating), Each(Stop, Reverse(LeavesOf([]))))
  {
    EachInReverse(Stop, [], []);
  }

  lemma FrontActive(ts: seq<Tree>)
    requires ts != [] && AllAgree(ts) && AllActive(ts) && NoneSync(ts)
    ensures AllAgree(Front(ts)) && AllActive(Front(ts)) && NoneSync(Front(ts))
    ensures Agree(Last(ts)) && Last(ts).state.Active? && NoSync(Last(ts))
  {
  }

  lemma {:induction false} NoSyncStopsAll(ts: seq<Tree>)
    requires AllAgree(ts) && AllActive(ts) && NoneSync(ts)
    ensures DeactivateAll(ts, false) == Outcomes(SetAll(ts, Deactivating), Each(Stop, Reverse(LeavesOf(ts))))
    decreases ts
  {
    if ts == [] {
      EmptyStops();
    } else {
      FrontActive(ts);
      NoSyncStops(Last(ts));
      NoSyncStopsAll(Front(ts));
      NoSyncStep(ts);
    }
  }

  lemma {:induction false} AllStopping(t: Tree)
    ensures Stopping(Set(t, Deactivating)) == Leaves(t)
    decreases t
  {
    if t.Composite? {
      AllStoppingOf(t.children);
    }
  }

  lemma {:induction false} AllStoppingOf(ts: seq<Tree>)
    ensures StoppingOf(SetAll(ts, Deactivating)) == LeavesOf(ts)
    decreases ts
  {
    if ts != [] {
      AllStopping(Last(ts));
      AllStoppingOf(Front(ts));
      FrontOfAppend(SetAll(Front(ts), Deactivating), Set(Last(ts), Deactivating));
    }
  }

  lemma {:induction false} StoppingAgrees(t: Tree)
    ensures Agree(Set(t, Deactivating))
    decreases t
  {
    if t.Composite? {
      forall k | 0 <= k < |t.children| ensures Agree(SetAll(t.children, Deactivating)[k]) {
        StoppingAgrees(t.children[k]);
      }
    }
  }

  /** Then a shutdown tells every leaf to stop before it waits for the first of them. */
  lemma NoSyncShutDown(ts: seq<Tree>)
    requires AllAgree(ts) && AllActive(ts) && NoneSync(ts)
    ensures ShutDown(ts, false).log
         == Each(Stop, Reverse(LeavesOf(ts))).Then(Each(Join, Reverse(LeavesOf(ts))))
  {
    var stopping := SetAll(ts, Deactivating);
    NoSyncStopsAll(ts);
    AllStoppingOf(ts);
    forall k | 0 <= k < |ts| ensures Agree(stopping[k]) {
      StoppingAgrees(ts[k]);
    }
    WaitAllRests(stopping);
  }

  /** A composite that is not synchronous only tells its children to stop. */
  lemma {:induction false} StopsWithoutWaiting(ts: seq<Tree>, k: nat)
    requires k < |ts|
    ensures DeactivateAll(ts, false).trees[k] == Deactivate(ts[k]).tree
    decreases ts
  {
    if k < |ts| - 1 {
      StopsWithoutWaiting(Front(ts), k);
    }
  }

  // ----- activation -----

  predicate CanStart(ids: seq<int>, failing: set<int>) {
    forall k :: 0 <= k < |ids| ==> ids[k] !in failing
  }

  /** First some leaves are started; all of them are then stopped in reverse order and waited for once. */
  predicate Undone(log: Log) {
    && Events(Start, log.Started()) <= log.events
    && log.Stopped() == Reverse(log.Started()) && multiset(log.Joined()) == multiset(log.Started())
  }

  /** What one activation must do: start the whole tree in insertion order, or leave it as it was. */
  predicate AllOrNothing(t: Tree, failing: set<int>, r: Activation) {
    && (r.ok <==> Idle(t) && CanStart(Leaves(t), failing))
    && (r.ok ==> r.tree == Set(t, Active) && r.log == Each(Start, Leaves(t)))
    && (!r.ok ==> r.tree == t && Undone(r.log) && r.log.Started() <= Leaves(t))
  }

  /** Children before the first failure are started, that one is as it was, the rest not reached. */
  predicate StartedUpTo(ts: seq<Tree>, failing: set<int>, r: Activations)
    requires |r.trees| == |ts| && r.count <= |ts|
  {
    && AllIdle(ts[..r.count]) && CanStart(LeavesOf(ts[..r.count]), failing)
    && r.trees == SetAll(ts[..r.count], Active) + ts[r.count..]
    && (r.count == |ts| ==> r.log == Each(Start, LeavesOf(ts)))
    && (r.count < |ts| ==>
          var failed := Activate(ts[r.count], failing);
          !failed.ok && AllOrNothing(ts[r.count], failing, failed)
          && r.log == Each(Start, LeavesOf(ts[..r.count])).Then(failed.log))
  }

  /** Activation starts every leaf in insertion order exactly when the whole tree is inactive and no
      leaf refuses; otherwise every leaf it had started is stopped, in reverse order, and waited for,
      and the tree is what it was. */
  lemma {:induction false} ActivateAllOrNothing(t: Tree, failing: set<int>)
    requires Agree(t)
    ensures AllOrNothing(t, failing, Activate(t, failing))
    decreases t
  {
    if t.state.NotActive? {
      match t
      case Leaf(_, id) => assert Leaves(t)[0] == id;
      case Composite(_, sync, children) =>
        ActivateAllStarts(children, failing);
        var r := ActivateAll(children, failing);
        if r.count == |children| {
          AllChildrenStarted(t, failing, r);
        } else {
          RolledBack(t, failing, r);
        }
    } else if Idle(t) {
      IdleAgrees(t);
    }
  }

  lemma {:induction false} ActivateAllStarts(ts: seq<Tree>, failing: set<int>)
    requires AllAgree(ts)
    ensures StartedUpTo(ts, failing, ActivateAll(ts, failing))
    decreases ts
  {
    if ts == [] {
    } else {
      ActivateAllStarts(Front(ts), failing);
      ActivateAllOrNothing(Last(ts), failing);
      var rest := ActivateAll(Front(ts), failing);
      if rest.count < |ts| - 1 {
        NotReached(ts, failing, rest);
      } else {
        LastTried(ts, failing, rest);
      }
    }
  }

  lemma TakeOfFront<T>(s: seq<T>, n: nat)
    requires n < |s|
    ensures s[..n] == Front(s)[..n] && s[n..] == Front(s)[n..] + [Last(s)]
    ensures n < |s| - 1 ==> s[n] == Front(s)[n]
  {
  }

  lemma Assoc<T>(a: seq<T>, b: seq<T>, c: seq<T>)
    ensures a + (b + c) == (a + b) + c
  {
  }

  lemma NotReached(ts: seq<Tree>, failing: set<int>, rest: Activations)
    requires ts != [] && |rest.trees| == |ts| - 1 && rest.count < |ts| - 1
    requires StartedUpTo(Front(ts), failing, rest)
    ensures StartedUpTo(ts, failing, Activations(rest.count, rest.trees + [Last(ts)], rest.log))
  {
    var c := rest.count;
    TakeOfFront(ts, c);
    Assoc(SetAll(ts[..c], Active), Front(ts)[c..], [Last(ts)]);
  }

  lemma IdleOneMore(ts: seq<Tree>)
    requires ts != [] && AllIdle(Front(ts)) && Idle(Last(ts))
    ensures AllIdle(ts)
  {
    assert forall k :: 0 <= k < |ts| - 1 ==> ts[k] == Front(ts)[k];
  }

  lemma CanStartBoth(a: seq<int>, b: seq<int>, failing: set<int>)
    requires CanStart(a, failing) && CanStart(b, failing)
    ensures CanStart(a + b, failing)
  {
  }

  lemma AllStarted(ts: seq<Tree>, failing: set<int>)
    requires AllIdle(ts) && CanStart(LeavesOf(ts), failing)
    ensures StartedUpTo(ts, failing, Activations(|ts|, SetAll(ts, Active), Each(Start, LeavesOf(ts))))
  {
    WholeOf(ts);
    WholeOf(SetAll(ts, Active));
    assert ts[|ts|..] == [];
  }

  lemma LastStarted(ts: seq<Tree>, failing: set<int>)
    requires ts != [] && AllIdle(Front(ts)) && Idle(Last(ts))
    requires CanStart(LeavesOf(Front(ts)), failing) && CanStart(Leaves(Last(ts)), failing)
    ensures StartedUpTo(ts, failing, Activations(|ts|, SetAll(ts, Active), Each(Start, LeavesOf(ts))))
  {
    IdleOneMore(ts);
    CanStartBoth(LeavesOf(Front(ts)), Leaves(Last(ts)), failing);
    AllStarted(ts, failing);
  }

  lemma LastTried(ts: seq<Tree>, failing: set<int>, rest: Activations)
    requires ts != [] && |rest.trees| == |ts| - 1 && rest.count == |ts| - 1
    requires StartedUpTo(Front(ts), failing, rest)
    requires AllOrNothing(Last(ts), failing, Activate(Last(ts), failing))
    ensures var last := Activate(Last(ts), failing);
      StartedUpTo(ts, failing,
        Activations(if last.ok then |ts| else |ts| - 1, rest.trees + [last.tree], rest.log.Then(last.log)))
  {
    var last := Activate(Last(ts), failing);
    WholeOf(Front(ts));
    WholeOf(SetAll(Front(ts), Active));
    if last.ok {
      EachConcat(Start, LeavesOf(Front(ts)), Leaves(Last(ts)));
      LastStarted(ts, failing);
    } else {
      assert ts[|ts| - 1..] == [Last(ts)];
    }
  }

  lemma {:induction false} LeavesArePrefix(ts: seq<Tree>, n: nat)
    requires n <= |ts|
    ensures LeavesOf(ts[..n]) <= LeavesOf(ts)
    decreases ts
  {
    if n == |ts| {
      assert ts[..n] == ts;
    } else {
      assert Front(ts)[..n] == ts[..n];
      LeavesArePrefix(Front(ts), n);
    }
  }

  lemma AllChildrenStarted(t: Tree, failing: set<int>, r: Activations)
    requires t.Composite? && t.state.NotActive? && |r.trees| == |t.children| == r.count
    requires StartedUpTo(t.children, failing, r)
    ensures AllOrNothing(t, failing, Activation(true, Composite(Active, t.sync, r.trees), r.log))
  {
    var ts := t.children;
    assert ts[..|ts|] == ts && ts[|ts|..] == [];
    assert SetAll(ts, NotActive) == ts;
    assert r.trees == SetAll(ts, Active);
  }

  lemma {:induction false} LeavesOfSet(t: Tree, state: State)
    ensures Leaves(Set(t, state)) == Leaves(t)
    decreases t
  {
    if t.Composite? {
      LeavesOfSetAll(t.children, state);
    }
  }

  lemma {:induction false} LeavesOfSetAll(ts: seq<Tree>, state: State)
    ensures LeavesOf(SetAll(ts, state)) == LeavesOf(ts)
    decreases ts
  {
    if ts != [] {
      LeavesOfSet(Last(ts), state);
      LeavesOfSetAll(Front(ts), state);
      assert Front(SetAll(ts, state)) == SetAll(Front(ts), state);
    }
  }

  lemma {:induction false} ActiveTreeAgrees(t: Tree)
    ensures Agree(Set(t, Active))
    decreases t
  {
    if t.Composite? {
      forall k | 0 <= k < |t.children| ensures Agree(SetAll(t.children, Active)[k]) {
        ActiveTreeAgrees(t.children[k]);
      }
    }
  }

  /** Shutting down children that were just started makes them what they were. */
  lemma StartThenShutDown(ts: seq<Tree>, sync: bool)
    requires AllIdle(ts)
    ensures var r := ShutDown(SetAll(ts, Active), sync);
      && r.trees == ts
      && r.log.Started() == [] && r.log.Stopped() == Reverse(LeavesOf(ts))
      && multiset(r.log.Joined()) == multiset(LeavesOf(ts))
  {
    var started := SetAll(ts, Active);
    forall k | 0 <= k < |ts| ensures Agree(started[k]) && SetAll(started, NotActive)[k] == ts[k] {
      ActiveTreeAgrees(ts[k]);
      SetTwice(ts[k], Active, NotActive);
    }
    LeavesOfSetAll(ts, Active);
    ShutDownRests(started, sync);
    assert SetAll(started, NotActive) == ts;
  }

  lemma UndoneAround(ids: seq<int>, inner: Log, undone: Log)
    requires Undone(inner) && undone.Started() == [] && undone.Stopped() == Reverse(ids)
    requires multiset(undone.Joined()) == multiset(ids)
    ensures var log := Each(Start, ids).Then(inner).Then(undone);
      log.Started() == ids + inner.Started() && Undone(log)
  {
    var log := Each(Start, ids).Then(inner).Then(undone);
    ReverseConcat(ids, inner.Started());
    StartsFirst(ids, inner, undone);
    Units(ids, inner.Started(), inner.Stopped(), undone.Stopped());
    JoinedOf(inner.Joined(), undone.Joined());
    JoinedOf(ids, inner.Started());
  }

  lemma StartsFirst(ids: seq<int>, inner: Log, undone: Log)
    requires Events(Start, inner.Started()) <= inner.events
    ensures Events(Start, ids + inner.Started()) <= Each(Start, ids).Then(inner).Then(undone).events
  {
    var all := Each(Start, ids).Then(inner).Then(undone).events;
    EachConcat(Start, ids, inner.Started());
    assert all == Events(Start, ids) + inner.events + undone.events;
  }

  lemma Units(a: seq<int>, b: seq<int>, c: seq<int>, d: seq<int>)
    ensures a + b + [] == a + b && [] + c + d == c + d
  {
  }

  lemma JoinedOf(a: seq<int>, b: seq<int>)
    ensures multiset([] + a + b) == multiset(a) + multiset(b) && multiset(a + b) == multiset(a) + multiset(b)
  {
  }

  lemma RefusedPart(before: seq<int>, part: seq<int>, all: seq<int>, failing: set<int>)
    requires before + part <= all && !CanStart(part, failing)
    ensures !CanStart(all, failing)
  {
    var k :| 0 <= k < |part| && part[k] in failing;
    assert all[|before| + k] == (before + part)[|before| + k];
  }

  lemma ChildIdle(ts: seq<Tree>, c: nat)
    requires c < |ts| && ts == SetAll(ts, NotActive)
    ensures Idle(ts[c])
  {
  }

  /** A refusal in one child is a refusal of the whole. */
  lemma Refused(ts: seq<Tree>, c: nat, failing: set<int>)
    requires c < |ts| && !(Idle(ts[c]) && CanStart(Leaves(ts[c]), failing))
    ensures !(ts == SetAll(ts, NotActive) && CanStart(LeavesOf(ts), failing))
  {
    LeavesUpTo(ts, c);
    if ts == SetAll(ts, NotActive) {
      ChildIdle(ts, c);
      RefusedPart(LeavesOf(ts[..c]), Leaves(ts[c]), LeavesOf(ts), failing);
    }
  }

  lemma LeavesUpTo(ts: seq<Tree>, c: nat)
    requires c < |ts|
    ensures LeavesOf(ts[..c + 1]) == LeavesOf(ts[..c]) + Leaves(ts[c])
    ensures LeavesOf(ts[..c + 1]) <= LeavesOf(ts)
  {
    assert Front(ts[..c + 1]) == ts[..c];
    LeavesArePrefix(ts, c + 1);
  }

  lemma RolledBack(t: Tree, failing: set<int>, r: Activations)
    requires t.Composite? && t.state.NotActive? && |r.trees| == |t.children| && r.count < |t.children|
    requires StartedUpTo(t.children, failing, r)
    ensures var undone := ShutDown(r.trees[..r.count], t.sync);
      AllOrNothing(t, failing,
        Activation(false, Composite(NotActive, t.sync, undone.trees + r.trees[r.count..]),
                   r.log.Then(undone.log)))
  {
    var ts, c := t.children, r.count;
    RolledBackTrees(ts, r, t.sync);
    RolledBackLog(ts, failing, r, t.sync);
    Refused(ts, c, failing);
  }

  lemma RolledBackTrees(ts: seq<Tree>, r: Activations, sync: bool)
    requires |r.trees| == |ts| && r.count < |ts| && AllIdle(ts[..r.count])
    requires r.trees == SetAll(ts[..r.count], Active) + ts[r.count..]
    ensures r.trees[..r.count] == SetAll(ts[..r.count], Active)
    ensures ShutDown(r.trees[..r.count], sync).trees + r.trees[r.count..] == ts
  {
    var c := r.count;
    TakeDrop(SetAll(ts[..c], Active), ts[c..]);
    StartThenShutDown(ts[..c], sync);
    Rejoin(ts, c);
  }

  lemma TakeDrop<T>(a: seq<T>, b: seq<T>)
    ensures (a + b)[..|a|] == a && (a + b)[|a|..] == b
  {
  }

  lemma Rejoin<T>(s: seq<T>, n: nat)
    requires n <= |s|
    ensures s[..n] + s[n..] == s
  {
  }

  lemma PrefixBehind<T>(a: seq<T>, b: seq<T>, c: seq<T>, all: seq<T>)
    requires b <= c && a + c <= all
    ensures a + b <= all
  {
  }

  lemma RolledBackLog(ts: seq<Tree>, failing: set<int>, r: Activations, sync: bool)
    requires |r.trees| == |ts| && r.count < |ts| && AllIdle(ts[..r.count])
    requires r.trees[..r.count] == SetAll(ts[..r.count], Active)
    requires var failed := Activate(ts[r.count], failing).log;
      && Undone(failed) && failed.Started() <= Leaves(ts[r.count])
      && r.log == Each(Start, LeavesOf(ts[..r.count])).Then(failed)
    ensures var log := r.log.Then(ShutDown(r.trees[..r.count], sync).log);
      Undone(log) && log.Started() <= LeavesOf(ts)
  {
    var c := r.count;
    var ids, inner := LeavesOf(ts[..c]), Activate(ts[c], failing).log;
    var undone := ShutDown(r.trees[..c], sync).log;
    StartThenShutDown(ts[..c], sync);
    UndoneAround(ids, inner, undone);
    LeavesUpTo(ts, c);
    PrefixBehind(ids, inner.Started(), Leaves(ts[c]), LeavesOf(ts));
  }

  // ----- adding and clearing children -----

  datatype Adding = Adding(ok: bool, tree: Tree, child: Tree, log: Log)

  function Insert<T>(ts: seq<T>, child: T, toHead: bool): (r: seq<T>)
    ensures |r| == |ts| + 1
  {
    if toHead then [child] + ts else ts + [child]
  }

  /** add_child_object: bring the child to the composite's side, then insert it.  A child that is
      already being stopped is taken as it is. */
  function AddChild(t: Tree, child: Tree, toHead: bool, failing: set<int>): (r: Adding)
    requires t.Composite?
    ensures r.tree.Composite?
  {
    var (ok, brought, log) :=
      if t.state.Active? then
        if child.state.Active? then (true, child, NOTHING)
        else var a := Activate(child, failing); (a.ok, a.tree, a.log)
      else if child.state.Active? then
        var d := Deactivate(child);
        var w := Wait(d.tree);
        (true, w.tree, d.log.Then(w.log))
      else (true, child, NOTHING);
    Adding(ok, if ok then t.(children := Insert(t.children, brought, toHead)) else t, brought, log)
  }

  function Clear(t: Tree): (r: Outcome)
    requires t.Composite?
    ensures r.tree == Composite(NotActive, t.sync, [])
  {
    Outcome(Composite(NotActive, t.sync, []),
            if t.state.NotActive? then NOTHING else ShutDown(t.children, t.sync).log)
  }

  lemma ActivateAgrees(t: Tree, failing: set<int>)
    requires Agree(t)
    ensures var r := Activate(t, failing);
      Agree(r.tree) && (r.ok ==> r.tree.state.Active?) && (!r.ok ==> r.tree == t)
  {
    ActivateAllOrNothing(t, failing);
    ActiveTreeAgrees(t);
  }

  lemma DeactivateAgrees(t: Tree)
    requires Agree(t)
    ensures Agree(Deactivate(t).tree) && !Deactivate(t).tree.state.Active?
    ensures !Blocks(Deactivate(t).tree)
  {
    if t.state.Active? {
      DeactivateStops(t);
    }
    WaitDoesNotBlock(Deactivate(t).tree);
  }

  lemma WaitAgrees(t: Tree)
    requires Agree(t) && !t.state.Active?
    ensures Agree(Wait(t).tree) && Idle(Wait(t).tree) && Wait(t).tree.state.NotActive?
  {
    WaitRests(t);
    SetTwice(t, NotActive, NotActive);
    IdleAgrees(Wait(t).tree);
  }

  lemma InsertAll<T>(ts: seq<T>, child: T, toHead: bool, p: T -> bool)
    requires p(child) && forall k :: 0 <= k < |ts| ==> p(ts[k])
    ensures forall k :: 0 <= k <= |ts| ==> p(Insert(ts, child, toHead)[k])
  {
  }

  lemma InsertAgrees(t: Tree, child: Tree, toHead: bool)
    requires t.Composite? && Agree(t) && Agree(child) && (child.state.Active? <==> t.state.Active?)
    ensures Agree(t.(children := Insert(t.children, child, toHead)))
  {
    InsertAll(t.children, child, toHead, u => Agree(u));
    InsertAll(t.children, child, toHead, (u: Tree) => u.state.Active? == t.state.Active?);
  }

  lemma AddAgrees(t: Tree, child: Tree, toHead: bool, failing: set<int>)
    requires t.Composite? && Agree(t) && Agree(child)
    ensures var r := AddChild(t, child, toHead, failing); Agree(r.tree) && Agree(r.child)
  {
    if t.state.Active? {
      ActivateAgrees(child, failing);
    } else if child.state.Active? {
      DeactivateAgrees(child);
      WaitAgrees(Deactivate(child).tree);
    }
    var r := AddChild(t, child, toHead, failing);
    if r.ok {
      InsertAgrees(t, r.child, toHead);
    }
  }

  /** What adding does to the child: beside an active composite an inactive child is started or is left
      as it was; beside another composite an active child is stopped and waited for; in every other
      case nothing happens to it. */
  lemma AddBrings(t: Tree, child: Tree, toHead: bool, failing: set<int>)
    requires t.Composite? && Agree(child)
    ensures var r := AddChild(t, child, toHead, failing);
      && (t.state.Active? && !child.state.Active? ==>
            AllOrNothing(child, failing, Activation(r.ok, r.child, r.log)))
      && (!t.state.Active? && child.state.Active? ==>
            && r.ok && r.child == Set(child, NotActive)
            && r.log.Started() == [] && r.log.Stopped() == Reverse(Leaves(child))
            && multiset(r.log.Joined()) == multiset(Leaves(child)))
      && (t.state.Active? == child.state.Active? ==> r.ok && r.child == child && r.log == NOTHING)
  {
    if t.state.Active? && !child.state.Active? {
      ActivateAllOrNothing(child, failing);
    } else if !t.state.Active? && child.state.Active? {
      StoppedAndWaited(child);
    }
  }

  lemma StoppedAndWaited(t: Tree)
    requires Agree(t) && t.state.Active?
    ensures var d := Deactivate(t);
      var w := Wait(d.tree);
      var log := d.log.Then(w.log);
      && w.tree == Set(t, NotActive) && log.Started() == [] && log.Stopped() == Reverse(Leaves(t))
      && multiset(log.Joined()) == multiset(Leaves(t))
  {
    var d := Deactivate(t);
    DeactivateStops(t);
    WaitStopped(t, d);
    WaitRests(d.tree);
    MultisetOfReverse(Stopping(d.tree));
  }

  lemma {:induction false} LeavesBehind(ts: seq<Tree>, child: Tree)
    ensures LeavesOf([child] + ts) == Leaves(child) + LeavesOf(ts)
    decreases ts
  {
    if ts == [] {
      assert [child] + ts == [child];
      assert Front([child]) == [];
      assert [] + Leaves(child) == Leaves(child) + [];
    } else {
      assert Front([child] + ts) == [child] + Front(ts) && Last([child] + ts) == Last(ts);
      LeavesBehind(Front(ts), child);
      Assoc(Leaves(child), LeavesOf(Front(ts)), Leaves(Last(ts)));
    }
  }

  lemma LeavesOfInsert(ts: seq<Tree>, child: Tree, toHead: bool)
    ensures LeavesOf(Insert(ts, child, toHead))
         == if toHead then Leaves(child) + LeavesOf(ts) else LeavesOf(ts) + Leaves(child)
  {
    LeavesBehind(ts, child);
    FrontOfAppend(ts, child);
  }

  /** An accepted child comes behind the others, or in front of them; a refused one is not there. */
  lemma AddPlaces(t: Tree, child: Tree, toHead: bool, failing: set<int>)
    requires t.Composite? && Agree(child)
    ensures var r := AddChild(t, child, toHead, failing);
      && Leaves(r.child) == Leaves(child)
      && Leaves(r.tree) == (if !r.ok then Leaves(t)
                            else if toHead then Leaves(child) + Leaves(t) else Leaves(t) + Leaves(child))
  {
    AddBrings(t, child, toHead, failing);
    LeavesOfSet(child, Active);
    LeavesOfSet(child, NotActive);
    LeavesOfInsert(t.children, AddChild(t, child, toHead, failing).child, toHead);
  }

  lemma NothingToStop(t: Tree, sync: bool)
    requires !t.state.Active?
    ensures StopChild(t, sync) == if sync then Wait(t) else Outcome(t, NOTHING)
  {
    ThenNothing(Wait(t).log);
  }

  /** Stopping children none of which is active is waiting for them, or nothing at all. */
  lemma {:induction false} NothingToStopIn(ts: seq<Tree>, sync: bool)
    requires NoneActive(ts)
    ensures DeactivateAll(ts, sync) == if sync then WaitAll(ts) else Outcomes(ts, NOTHING)
    decreases ts
  {
    if ts != [] {
      NothingToStop(Last(ts), sync);
      NothingToStopIn(Front(ts), sync);
      ThenNothing(NOTHING);
    }
  }

  lemma ShutDownStopping(ts: seq<Tree>, sync: bool)
    requires AllAgree(ts) && NoneActive(ts)
    ensures ShutDown(ts, sync).log == Each(Join, Reverse(StoppingOf(ts)))
  {
    var log := Each(Join, Reverse(StoppingOf(ts)));
    NothingToStopIn(ts, sync);
    WaitAllRests(ts);
    AllSetIdle(ts);
    WaitAllRests(SetAll(ts, NotActive));
    EachInReverse(Join, [], []);
    ThenNothing(log);
  }

  lemma AllSetIdle(ts: seq<Tree>)
    ensures AllIdle(SetAll(ts, NotActive)) && AllAgree(SetAll(ts, NotActive))
    ensures NoneActive(SetAll(ts, NotActive)) && StoppingOf(SetAll(ts, NotActive)) == []
  {
    var rs := SetAll(ts, NotActive);
    forall k | 0 <= k < |ts| ensures Idle(rs[k]) && Agree(rs[k]) && !rs[k].state.Active? {
      SetTwice(ts[k], NotActive, NotActive);
      IdleAgrees(rs[k]);
    }
    NothingStopping(rs);
  }

  /** clear_children stops the leaves of an active composite, in reverse order, and waits for each of
      them; of a stopping composite it waits for those still stopping; of an inactive one for none. */
  lemma ClearStops(t: Tree)
    requires t.Composite? && Agree(t)
    ensures var log := Clear(t).log;
      && log.Started() == []
      && log.Stopped() == (if t.state.Active? then Reverse(Leaves(t)) else [])
      && (t.state.Active? ==> multiset(log.Joined()) == multiset(Leaves(t)))
      && (t.state.Deactivating? ==> log.Joined() == Reverse(Stopping(t)))
      && (t.state.NotActive? ==> log == NOTHING)
  {
    if t.state.Active? {
      ShutDownRests(t.children, t.sync);
    } else if t.state.Deactivating? {
      ClearWaits(t);
    }
  }

  lemma ClearWaits(t: Tree)
    requires t.Composite? && Agree(t) && t.state.Deactivating?
    ensures Clear(t).log == Each(Join, Reverse(Stopping(t)))
  {
    ShutDownStopping(t.children, t.sync);
  }

  lemma StoppedChildDoesNotBlock(t: Tree, sync: bool)
    requires Agree(t)
    ensures !Blocks(StopChild(t, sync).tree)
  {
    DeactivateAgrees(t);
    if sync {
      WaitAgrees(Deactivate(t).tree);
      WaitDoesNotBlock(Wait(Deactivate(t).tree).tree);
    }
  }

  /** After all of a list was told to stop, no wait for one of them blocks. */
  lemma {:induction false} ShutDownDoesNotBlock(ts: seq<Tree>, sync: bool)
    requires AllAgree(ts)
    ensures forall k :: 0 <= k < |ts| ==> !Blocks(DeactivateAll(ts, sync).trees[k])
    decreases ts
  {
    if ts != [] {
      StoppedChildDoesNotBlock(Last(ts), sync);
      ShutDownDoesNotBlock(Front(ts), sync);
    }
  }

  // ----- the composite object -----

  lemma {:induction false} FirstFailureEnds(ts: seq<Tree>, n: nat, failing: set<int>)
    requires n < |ts| && ActivateAll(ts[..n + 1], failing).count == n
    ensures var r := ActivateAll(ts[..n + 1], failing);
      ActivateAll(ts, failing) == Activations(n, r.trees + ts[n + 1..], r.log)
    decreases ts
  {
    if n + 1 == |ts| {
      assert ts[..n + 1] == ts && ts[n + 1..] == [];
    } else {
      assert Front(ts)[..n + 1] == ts[..n + 1];
      FirstFailureEnds(Front(ts), n, failing);
      assert Front(ts)[n + 1..] + [Last(ts)] == ts[n + 1..];
    }
  }

  lemma OneMore(ts: seq<Tree>, n: nat)
    requires n < |ts|
    ensures Front(ts[..n + 1]) == ts[..n] && Last(ts[..n + 1]) == ts[n]
  {
  }

  lemma UpdateMiddle<T>(ts: seq<T>, i: nat, done: seq<T>, rest: seq<T>, x: T)
    requires i < |ts|
    ensures (ts[..i + 1] + done + rest)[i := x] == ts[..i] + ([x] + done) + rest
    ensures (ts[..i + 1] + done + rest)[i] == ts[i]
  {
  }

  /** Of `ts`, those from i on have been stopped, giving `done`; `was` and `now` are the log before
      and now. */
  predicate DeactivatedFrom(ts: seq<Tree>, sync: bool, i: nat, done: seq<Tree>, was: Log, now: Log)
    requires i <= |ts|
  {
    var all, left := DeactivateAll(ts, sync), DeactivateAll(ts[..i], sync);
    all.trees == left.trees + done && was.Then(all.log) == now.Then(left.log)
  }

  lemma DeactivateOneMore(ts: seq<Tree>, sync: bool, i: nat, done: seq<Tree>, was: Log, now: Log)
    requires i < |ts| && DeactivatedFrom(ts, sync, i + 1, done, was, now)
    ensures var c := StopChild(ts[i], sync);
      DeactivatedFrom(ts, sync, i, [c.tree] + done, was, now.Then(c.log))
  {
    OneMore(ts, i);
    var c, left := StopChild(ts[i], sync), DeactivateAll(ts[..i], sync);
    ThenAssoc(now, c.log, left.log);
    assert left.trees + [c.tree] + done == left.trees + ([c.tree] + done);
  }

  predicate WaitedFrom(ts: seq<Tree>, i: nat, done: seq<Tree>, was: Log, now: Log)
    requires i <= |ts|
  {
    var all, left := WaitAll(ts), WaitAll(ts[..i]);
    all.trees == left.trees + done && was.Then(all.log) == now.Then(left.log)
  }

  lemma WaitOneMore(ts: seq<Tree>, i: nat, done: seq<Tree>, was: Log, now: Log)
    requires i < |ts| && WaitedFrom(ts, i + 1, done, was, now)
    ensures var w := Wait(ts[i]); WaitedFrom(ts, i, [w.tree] + done, was, now.Then(w.log))
  {
    OneMore(ts, i);
    var w, left := Wait(ts[i]), WaitAll(ts[..i]);
    ThenAssoc(now, w.log, left.log);
    assert left.trees + [w.tree] + done == left.trees + ([w.tree] + done);
  }

  lemma WholeOf<T>(ts: seq<T>)
    ensures ts[..|ts|] == ts && ts[..0] == [] && ts + [] == ts && [] + ts == ts
  {
  }

  /** Children are held by value here; calling one replaces it by what the call makes of it. */
  class CompositeActiveObject {
    const sync: bool
    var state: State
    var children: seq<Tree>
    ghost var history: Log

    function Value(): Tree
      reads this
    {
      Composite(state, sync, children)
    }

    constructor (sync: bool)
      ensures Value() == Composite(NotActive, sync, []) && history == NOTHING
    {
      this.sync := sync;
      state, children, history := NotActive, [], NOTHING;
    }

    /** Stop one child and, in a synchronous composite, wait for it. */
    method DeactivateChild(i: nat)
      requires i < |children| && Agree(children[i])
      modifies this`children, this`history
      ensures var r := StopChild(old(children[i]), sync);
        children == old(children)[i := r.tree] && history == old(history).Then(r.log)
    {
      var d := Deactivate(children[i]);
      ghost var log := d.log;
      DeactivateAgrees(children[i]);
      children := children[i := d.tree];
      if sync {
        assert !Blocks(children[i]);
        var w := Wait(children[i]);
        children := children[i := w.tree];
        log := log.Then(w.log);
      }
      history := history.Then(log);
    }

    /** deactivate_object_(rit): the first n children, last of them first. */
    method DeactivateChildren(n: nat)
      requires n <= |children| && AllAgree(children[..n])
      modifies this`children, this`history
      ensures var r := DeactivateAll(old(children[..n]), sync);
        children == r.trees + old(children[n..]) && history == old(history).Then(r.log)
    {
      ghost var ts, was, rest := children[..n], history, children[n..];
      ghost var done: seq<Tree> := [];
      WholeOf(ts);
      WholeOf(DeactivateAll(ts, sync).trees);
      assert children == ts[..n] + done + rest;
      var i := n;
      while i > 0
        invariant i <= n && children == ts[..i] + done + rest
        invariant DeactivatedFrom(ts, sync, i, done, was, history)
      {
        i := i - 1;
        UpdateMiddle(ts, i, done, rest, StopChild(ts[i], sync).tree);
        DeactivateOneMore(ts, sync, i, done, was, history);
        DeactivateChild(i);
        done := [StopChild(ts[i], sync).tree] + done;
      }
      WholeOf(done);
      ThenNothing(history);
    }

    /** wait_for_some_objects_: the first n children, last of them first. */
    method WaitChildren(n: nat)
      requires n <= |children| && forall k :: 0 <= k < n ==> !Blocks(children[k])
      modifies this`children, this`history
      ensures var r := WaitAll(old(children[..n]));
        children == r.trees + old(children[n..]) && history == old(history).Then(r.log)
    {
      ghost var ts, was, rest := children[..n], history, children[n..];
      ghost var done: seq<Tree> := [];
      WholeOf(ts);
      WholeOf(WaitAll(ts).trees);
      assert children == ts[..n] + done + rest;
      var i := n;
      while i > 0
        invariant i <= n && children == ts[..i] + done + rest
        invariant WaitedFrom(ts, i, done, was, history)
      {
        i := i - 1;
        UpdateMiddle(ts, i, done, rest, Wait(ts[i]).tree);
        WaitOneMore(ts, i, done, was, history);
        var w := Wait(children[i]);
        history := history.Then(w.log);
        children := children[i := w.tree];
        done := [w.tree] + done;
      }
      WholeOf(done);
      ThenNothing(history);
    }

    /** The rollback and clear_children: stop the first n children, then wait for them. */
    method ShutDownChildren(n: nat)
      requires n <= |children| && AllAgree(children[..n])
      modifies this`children, this`history
      ensures var r := ShutDown(old(children[..n]), sync);
        children == r.trees + old(children[n..]) && history == old(history).Then(r.log)
    {
      ghost var was := history;
      ghost var d := DeactivateAll(children[..n], sync);
      ShutDownDoesNotBlock(children[..n], sync);
      TakeDrop(d.trees, children[n..]);
      DeactivateChildren(n);
      assert forall k :: 0 <= k < n ==> children[k] == d.trees[k];
      WaitChildren(n);
      ThenAssoc(was, d.log, WaitAll(d.trees).log);
    }

    /** Start the children in order up to the first that refuses. */
    method StartChildren(failing: set<int>) returns (count: nat)
      requires AllAgree(children)
      modifies this`children, this`history
      ensures var r := ActivateAll(old(children), failing);
        count == r.count && children == r.trees && history == old(history).Then(r.log)
    {
      ghost var ts, was := children, history;
      var ok := true;
      count := 0;
      WholeOf(ts);
      ThenNothing(history);
      while count < |children| && ok
        invariant ActivatedUpTo(ts, failing, count, ok, children, was, history)
        decreases |ts| - count, ok
      {
        ActivateOneMore(ts, failing, count, children, was, history);
        var a := Activate(children[count], failing);
        history := history.Then(a.log);
        children := children[count := a.tree];
        ok := a.ok;
        if ok {
          count := count + 1;
        }
      }
      ActivatedAll(ts, failing, count, ok, children, was, history);
    }

    /** activate_object with activate_object_. */
    method ActivateObject(failing: set<int>) returns (ok: bool)
      requires Agree(Value())
      modifies this
      ensures var r := Activate(old(Value()), failing);
        ok == r.ok && Value() == r.tree && history == old(history).Then(r.log)
    {
      ghost var was, ts := history, children;
      ThenNothing(history);
      if state != NotActive {
        return false;
      }
      var count := StartChildren(failing);
      if count == |children| {
        state := Active;
        return true;
      }
      ghost var r := ActivateAll(ts, failing);
      ActivateAllStarts(ts, failing);
      StartedAgree(ts, failing, r);
      state := Deactivating;
      ShutDownChildren(count);
      state := NotActive;
      ThenAssoc(was, r.log, ShutDown(r.trees[..count], sync).log);
      ok := false;
    }

    /** deactivate_object with deactivate_object_. */
    method DeactivateObject()
      requires Agree(Value())
      modifies this
      ensures Value() == Deactivate(old(Value())).tree
      ensures history == old(history).Then(Deactivate(old(Value())).log)
    {
      ThenNothing(history);
      if state != Active {
        return;
      }
      state := Deactivating;
      ghost var ts := children;
      assert ts[|ts|..] == [];
      WholeOf(ts);
      WholeOf(DeactivateAll(ts, sync).trees);
      DeactivateChildren(|children|);
    }

    /** wait_object with wait_object_, once it does not block. */
    method WaitObject()
      requires Agree(Value()) && state != Active
      modifies this
      ensures Value() == Wait(old(Value())).tree
      ensures history == old(history).Then(Wait(old(Value())).log)
    {
      forall k | 0 <= k < |children| ensures !Blocks(children[k]) {
        WaitDoesNotBlock(children[k]);
      }
      WholeOf(children);
      WaitChildren(|children|);
      if state == Deactivating {
        state := NotActive;
      }
    }

    /** add_child_object; `after` is the child as the call leaves it. */
    method AddChildObject(child: Tree, toHead: bool, failing: set<int>) returns (ok: bool, after: Tree)
      requires Agree(Value()) && Agree(child)
      modifies this
      ensures var r := AddChild(old(Value()), child, toHead, failing);
        ok == r.ok && after == r.child && Value() == r.tree && history == old(history).Then(r.log)
    {
      ThenNothing(history);
      after := child;
      if state == Active {
        if child.state != Active {
          var a := Activate(child, failing);
          after := a.tree;
          history := history.Then(a.log);
          if !a.ok {
            return false, after;
          }
        }
      } else if child.state == Active {
        var d := Deactivate(child);
        DeactivateAgrees(child);
        assert !Blocks(d.tree);
        var w := Wait(d.tree);
        after := w.tree;
        ThenAssoc(history, d.log, w.log);
        history := history.Then(d.log).Then(w.log);
      }
      children := if toHead then [after] + children else children + [after];
      ok := true;
    }

    /** clear_children. */
    method ClearChildren()
      requires Agree(Value())
      modifies this
      ensures Value() == Clear(old(Value())).tree
      ensures history == old(history).Then(Clear(old(Value())).log)
    {
      ThenNothing(history);
      if state != NotActive {
        WholeOf(children);
        ShutDownChildren(|children|);
        state := NotActive;
      }
      children := [];
    }
  }

  /** The loop of activate_object_: i children started, `ok` unless child i refused. */
  predicate ActivatedUpTo(ts: seq<Tree>, failing: set<int>, i: nat, ok: bool, now: seq<Tree>,
                          was: Log, log: Log)
  {
    && |now| == |ts| && i <= |ts| && (!ok ==> i < |ts|)
    && var tried := if ok then i else i + 1;
       var r := ActivateAll(ts[..tried], failing);
       r.count == i && now == r.trees + ts[tried..] && log == was.Then(r.log)
  }

  lemma ActivateOneMore(ts: seq<Tree>, failing: set<int>, i: nat, now: seq<Tree>, was: Log, log: Log)
    requires i < |ts| && ActivatedUpTo(ts, failing, i, true, now, was, log)
    ensures now[i] == ts[i]
    ensures var a := Activate(ts[i], failing);
      ActivatedUpTo(ts, failing, if a.ok then i + 1 else i, a.ok, now[i := a.tree], was, log.Then(a.log))
  {
    OneMore(ts, i);
    var r, a := ActivateAll(ts[..i], failing), Activate(ts[i], failing);
    ThenAssoc(was, r.log, a.log);
    assert now[i := a.tree] == r.trees + [a.tree] + ts[i + 1..];
  }

  lemma ActivatedAll(ts: seq<Tree>, failing: set<int>, i: nat, ok: bool, now: seq<Tree>, was: Log, log: Log)
    requires ActivatedUpTo(ts, failing, i, ok, now, was, log) && (ok ==> i == |ts|)
    ensures var r := ActivateAll(ts, failing);
      r.count == i && now == r.trees && log == was.Then(r.log) && (ok <==> i == |ts|)
  {
    if ok {
      WholeOf(ts);
      assert now == ActivateAll(ts, failing).trees;
    } else {
      FirstFailureEnds(ts, i, failing);
    }
  }

  lemma StartedAgree(ts: seq<Tree>, failing: set<int>, r: Activations)
    requires |r.trees| == |ts| && r.count <= |ts| && StartedUpTo(ts, failing, r)
    ensures AllAgree(r.trees[..r.count]) && AllActive(r.trees[..r.count])
  {
    TakeDrop(SetAll(ts[..r.count], Active), ts[r.count..]);
    forall k | 0 <= k < r.count ensures Agree(r.trees[..r.count][k]) {
      ActiveTreeAgrees(ts[..r.count][k]);
    }
  }
}
