/** The descriptor handling protocol of DescriptorHandlerPoller::handle_ for one holder:
    any number of threads, a one-shot descriptor, an atomic counter that elects one owner
    and delegates the other threads' events to it, and rearming under a lock.

    Each step is one atomic action of one thread, so a run is an arbitrary interleaving. */
module HandlerProtocol {
  import opened Sums

  // DescriptorHandler::StateChange
  const STOP_READ_HANDLE: bv64 := 1
  const START_READ_HANDLE: bv64 := 2
  const CLOSE_READ_HANDLE: bv64 := 4
  const STOP_WRITE_HANDLE: bv64 := 8
  const START_WRITE_HANDLE: bv64 := 16
  const CLOSE_WRITE_HANDLE: bv64 := 32
  const STOP_PROCESSING: bv64 := 64

  datatype Flags = Flags(handleRead: bool, handleWrite: bool, readClosed: bool, writeClosed: bool) {
    predicate Closed() { readClosed && writeClosed }

    function Wanted(): Mask { Mask(handleRead, handleWrite) }
  }

  predicate Has(change: bv64, flag: bv64) { change & flag != 0 }

  /** What one handler result does to the holder's flags.  Closing the write side clears the
      read flag and leaves the write flag, as the code has it. */
  function Applied(f: Flags, change: bv64): (r: Flags)
    ensures r.readClosed == (f.readClosed || Has(change, CLOSE_READ_HANDLE))
    ensures r.writeClosed == (f.writeClosed || Has(change, CLOSE_WRITE_HANDLE))
    ensures f.Closed() ==> r.Closed()
    ensures r.handleRead <==>
      && !Has(change, CLOSE_READ_HANDLE) && !Has(change, CLOSE_WRITE_HANDLE)
      && (Has(change, START_READ_HANDLE) || (f.handleRead && !Has(change, STOP_READ_HANDLE)))
    ensures Has(change, CLOSE_WRITE_HANDLE) ==> r.handleWrite == f.handleWrite
    ensures !Has(change, CLOSE_WRITE_HANDLE) ==>
      (r.handleWrite <==>
         Has(change, START_WRITE_HANDLE) || (f.handleWrite && !Has(change, STOP_WRITE_HANDLE)))
  {
    var read :=
      if Has(change, CLOSE_READ_HANDLE) then false
      else if Has(change, START_READ_HANDLE) then true
      else if Has(change, STOP_READ_HANDLE) then false
      else f.handleRead;
    var write :=
      if Has(change, CLOSE_WRITE_HANDLE) then f.handleWrite
      else if Has(change, START_WRITE_HANDLE) then true
      else if Has(change, STOP_WRITE_HANDLE) then false
      else f.handleWrite;
    Flags(read && !Has(change, CLOSE_WRITE_HANDLE), write,
          f.readClosed || Has(change, CLOSE_READ_HANDLE),
          f.writeClosed || Has(change, CLOSE_WRITE_HANDLE))
  }

  /** The mutable flags of a DescriptorHandlerHolder. */
  class DescriptorHandlerHolder {
    var handleRead: bool
    var handleWrite: bool
    var readClosed: bool
    var writeClosed: bool

    function Value(): Flags
      reads this
    {
      Flags(handleRead, handleWrite, readClosed, writeClosed)
    }

    constructor ()
      ensures Value() == INITIAL_FLAGS
    {
      handleRead, handleWrite, readClosed, writeClosed := true, true, false, false;
    }

    method ApplyStateModify(stateModify: bv64) returns (stop: bool)
      modifies this
      ensures Value() == Applied(old(Value()), stateModify)
      ensures stop == Has(stateModify, STOP_PROCESSING)
    {
      var resHandleRead := handleRead;
      var resHandleWrite := handleWrite;
      if Has(stateModify, CLOSE_READ_HANDLE) {
        resHandleRead := false;
        readClosed := true;
      } else if Has(stateModify, START_READ_HANDLE) {
        resHandleRead := true;
      } else if Has(stateModify, STOP_READ_HANDLE) {
        resHandleRead := false;
      }
      if Has(stateModify, CLOSE_WRITE_HANDLE) {
        resHandleRead := false;
        writeClosed := true;
      } else if Has(stateModify, START_WRITE_HANDLE) {
        resHandleWrite := true;
      } else if Has(stateModify, STOP_WRITE_HANDLE) {
        resHandleWrite := false;
      }
      handleRead := resHandleRead;
      handleWrite := resHandleWrite;
      stop := Has(stateModify, STOP_PROCESSING);
    }
  }

  // ----- the step system -----

  datatype Mask = Mask(read: bool, write: bool)

  /** The descriptor's entry in epoll: one-shot, so a delivery disarms it. */
  datatype Registration = Armed(mask: Mask) | Disarmed | Deleted

  /** Where a thread is in handle_; `rearm` is its local rearm_fd. */
  datatype Pc =
    | Waiting                                // not holding an event for this holder
    | Batched                                // event taken from epoll_wait, handle_ not yet entered
    | Entered(prev: int)                     // handle_in_progress++ gave prev
    | PassRead(rearm: bool)                  // top of the do loop
    | AfterRead(rearm: bool, write: bool)    // read() applied except handle_write
    | PassWrite(rearm: bool)
    | AfterWrite(rearm: bool, write: bool)   // write() applied except handle_write
    | PassCheck(rearm: bool)                 // test of the two closed flags
    | Deleting(rearm: bool)                  // handling_finished set, epoll_del_fd_ next
    | Stopping(rearm: bool)                  // stopped() next
    | Pushing(rearm: bool)                   // reset, cleaner push and erase next
    | LoopTest                               // handle_in_progress-- > 1 next, rearm_fd is true
    | RearmWait                              // rearm_lock not yet taken
    | RearmRead                              // lock held, handle_read not yet read
    | RearmWrite(read: bool)                 // handle_write not yet read
    | RearmCtl(read: bool, write: bool)      // epoll_ctl next
    | Failed                                 // rearmed a descriptor that is no longer registered

  /** What the threads share: the holder, its registration and its lock (-1 when free).  The
      fields from `owner` on are history: the steps write them and never read them. */
  datatype Shared = Shared(
    flags: Flags, inProgress: int, finished: bool, reg: Registration, lock: int,
    owner: int,          // the elected thread, -1 when there is none
    direct: bool,        // the latest arming was a direct rearm call
    passDue: bool,       // a notification has not been followed by a pass start
    passes: nat,         // passes started since the latest election
    notified: nat, completed: nat, stoppedCalls: nat, pushes: nat)

  datatype State = State(sh: Shared, pcs: seq<Pc>)

  /** Deliver: epoll gives the event to a waiting thread.  Direct: DescriptorHandler::rearm is
      called.  Run: a thread takes its next action; `change` is what the handler returns. */
  datatype Step = Deliver(t: nat) | Direct(mask: Mask) | Run(t: nat, change: bv64)

  const INITIAL_FLAGS := Flags(true, true, false, false)

  const INITIAL_SHARED :=
    Shared(INITIAL_FLAGS, 0, false, Armed(Mask(true, true)), -1, -1, false, false, 0, 0, 0, 0, 0)

  predicate Initial(s: State) {
    s.sh == INITIAL_SHARED && forall i :: 0 <= i < |s.pcs| ==> s.pcs[i] == Waiting
  }

  predicate CanRun(pc: Pc, sh: Shared) {
    pc != Waiting && pc != Failed && (pc == RearmWait ==> sh.lock == -1)
  }

  predicate Enabled(s: State, step: Step) {
    match step
    case Deliver(t) => t < |s.pcs| && s.pcs[t] == Waiting && s.sh.reg.Armed?
    case Direct(_) => s.sh.reg != Deleted
    case Run(t, _) => t < |s.pcs| && CanRun(s.pcs[t], s.sh)
  }

  function Next(s: State, step: Step): State
    requires Enabled(s, step)
  {
    match step
    case Deliver(t) => State(s.sh.(reg := Disarmed), s.pcs[t := Batched])
    case Direct(mask) => s.(sh := s.sh.(reg := Armed(mask), direct := true))
    case Run(t, change) =>
      var (pc, sh) := Action(s.pcs[t], s.sh, t, change);
      State(sh, s.pcs[t := pc])
  }

  predicate Stepped(s: State, step: Step, s': State) {
    Enabled(s, step) && s' == Next(s, step)
  }

  /** The next action of thread t at pc. */
  function Action(pc: Pc, sh: Shared, t: nat, change: bv64): (Pc, Shared)
    requires CanRun(pc, sh)
  {
    if pc.Batched? || pc.Entered? then Enter(pc, sh, t)
    else if InPass(pc) then Pass(pc, sh, change)
    else if Closing(pc) then Close(pc, sh)
    else Rearm(pc, sh, t)
  }

  function Enter(pc: Pc, sh: Shared, t: nat): (Pc, Shared)
    requires pc.Batched? || pc.Entered?
  {
    if pc.Batched? then
      (Entered(sh.inProgress),
       sh.(inProgress := sh.inProgress + 1, notified := sh.notified + 1, passDue := true,
           owner := if sh.inProgress == 0 then t else sh.owner))
    else if !sh.finished && pc.prev == 0 then (PassRead(false), sh.(passDue := false, passes := 1))
    else (Waiting, sh)
  }

  function Pass(pc: Pc, sh: Shared, change: bv64): (Pc, Shared)
    requires InPass(pc)
  {
    match pc
    case PassRead(rearm) =>
      if !sh.flags.handleRead then (PassWrite(rearm), sh) else
      var f := Applied(sh.flags, change);
      (AfterRead(rearm, f.handleWrite), sh.(flags := f.(handleWrite := sh.flags.handleWrite)))
    case AfterRead(rearm, write) =>
      (PassWrite(rearm), sh.(flags := sh.flags.(handleWrite := write)))
    case PassWrite(rearm) =>
      if !sh.flags.handleWrite then (PassCheck(rearm), sh) else
      var f := Applied(sh.flags, change);
      (AfterWrite(rearm, f.handleWrite), sh.(flags := f.(handleWrite := sh.flags.handleWrite)))
    case AfterWrite(rearm, write) =>
      (PassCheck(rearm), sh.(flags := sh.flags.(handleWrite := write)))
    case PassCheck(rearm) =>
      if sh.flags.Closed() then (Deleting(rearm), sh.(finished := true)) else (LoopTest, sh)
    case LoopTest =>
      var sh' := sh.(inProgress := sh.inProgress - 1, completed := sh.completed + 1);
      if sh.inProgress > 1
      then (PassRead(true), sh'.(passDue := false, passes := sh.passes + 1))
      else (RearmWait, sh'.(owner := -1))
  }

  function Close(pc: Pc, sh: Shared): (Pc, Shared)
    requires Closing(pc)
  {
    match pc
    case Deleting(rearm) => (Stopping(rearm), sh.(reg := Deleted))
    case Stopping(rearm) => (Pushing(rearm), sh.(stoppedCalls := sh.stoppedCalls + 1))
    case Pushing(rearm) =>
      (if rearm then RearmWait else Waiting, sh.(pushes := sh.pushes + 1, owner := -1))
  }

  function Rearm(pc: Pc, sh: Shared, t: nat): (Pc, Shared)
    requires pc.RearmWait? || Locked(pc)
  {
    match pc
    case RearmWait => (RearmRead, sh.(lock := t))
    case RearmRead => (RearmWrite(sh.flags.handleRead), sh)
    case RearmWrite(read) => (RearmCtl(read, sh.flags.handleWrite), sh)
    case RearmCtl(read, write) =>
      if sh.reg == Deleted then (Failed, sh.(lock := -1))
      else (Waiting, sh.(reg := Armed(Mask(read, write)), direct := false, lock := -1))
  }

  /** The step is a thread starting a pass over the handlers. */
  predicate StartsPass(s: State, step: Step) {
    && Enabled(s, step) && step.Run?
    && match s.pcs[step.t]
       case Entered(prev) => !s.sh.finished && prev == 0
       case LoopTest => s.sh.inProgress > 1
       case _ => false
  }

  /** The step is handle_in_progress++ on an event. */
  predicate Notifies(s: State, step: Step) {
    Enabled(s, step) && step.Run? && s.pcs[step.t] == Batched
  }

  predicate InPass(pc: Pc) {
    pc.PassRead? || pc.AfterRead? || pc.PassWrite? || pc.AfterWrite? || pc.PassCheck? || pc.LoopTest?
  }

  predicate Closing(pc: Pc) { pc.Deleting? || pc.Stopping? || pc.Pushing? }

  predicate Owning(pc: Pc) { pc == Entered(0) || InPass(pc) || Closing(pc) }

  predicate Locked(pc: Pc) { pc.RearmRead? || pc.RearmWrite? || pc.RearmCtl? }

  // ----- invariants -----

  predicate ThreadOk(pc: Pc, isOwner: bool, isHolder: bool) {
    && (Owning(pc) <==> isOwner)
    && (Locked(pc) <==> isHolder)
    && (pc.Entered? ==> pc.prev >= 0)
  }

  /** The owner is the one thread in the elected section, the lock holder the one rearming. */
  ghost predicate ThreadsOk(s: State) {
    && -1 <= s.sh.owner < |s.pcs| && -1 <= s.sh.lock < |s.pcs|
    && forall i :: 0 <= i < |s.pcs| ==> ThreadOk(s.pcs[i], s.sh.owner == i, s.sh.lock == i)
  }

  function PcAt(s: State, t: int): Pc { if 0 <= t < |s.pcs| then s.pcs[t] else Waiting }

  /** The counter counts the notifications without a completed pass, and has an owner. */
  predicate CounterOk(sh: Shared) {
    && sh.inProgress >= 0
    && (sh.inProgress == 0 ==> sh.owner == -1)
    && (sh.inProgress > 0 && !sh.finished ==> sh.owner != -1)
    && sh.notified == sh.completed + sh.inProgress
  }

  /** Once both flags are set the counter never returns to zero, the owner is on its way to the
      close branch, and stopped() and the cleaner push follow once each. */
  predicate ClosingOk(sh: Shared, ownerPc: Pc) {
    && (sh.finished ==> sh.flags.Closed())
    && (sh.flags.Closed() ==> sh.inProgress > 0)
    && (sh.owner != -1 ==> (Closing(ownerPc) <==> sh.finished))
    && (sh.flags.Closed() && !sh.finished ==>
          ownerPc.AfterRead? || ownerPc.PassWrite? || ownerPc.AfterWrite? || ownerPc.PassCheck?)
    && (sh.reg == Deleted ==> sh.finished)
    && (sh.finished && !ownerPc.Deleting? ==> sh.reg == Deleted)
    && sh.stoppedCalls == (if sh.finished && (sh.owner == -1 || ownerPc.Pushing?) then 1 else 0)
    && sh.pushes == (if sh.finished && sh.owner == -1 then 1 else 0)
  }

  /** A notification without a later pass start has a thread that will start one. */
  predicate DueOk(sh: Shared, ownerPc: Pc) {
    sh.passDue && !sh.finished ==> ownerPc == Entered(0) || sh.inProgress > 1
  }

  predicate OwnerOk(sh: Shared, ownerPc: Pc) {
    CounterOk(sh) && ClosingOk(sh, ownerPc) && DueOk(sh, ownerPc)
  }

  /** Thread t is at pc, and ownerPc is where the owner is. */
  predicate Local(pc: Pc, sh: Shared, t: nat, ownerPc: Pc) {
    && CanRun(pc, sh) && ThreadOk(pc, sh.owner == t, sh.lock == t)
    && (sh.owner == t ==> ownerPc == pc)
    && (if sh.owner == -1 then ownerPc == Waiting else Owning(ownerPc))
    && OwnerOk(sh, ownerPc)
  }

  /** The owner or the lock changes hands at most between thread t and nobody. */
  predicate HandOver(before: int, after: int, t: nat) {
    after == before || (before == -1 && after == t) || (before == t && after == -1)
  }

  function OwnerAfter(sh: Shared, t: nat, pc: Pc, ownerPc: Pc): Pc {
    if sh.owner == t then pc else if sh.owner == -1 then Waiting else ownerPc
  }

  /** What one action of thread t keeps. */
  predicate Kept(sh: Shared, t: nat, ownerPc: Pc, pc': Pc, sh': Shared) {
    && ThreadOk(pc', sh'.owner == t, sh'.lock == t)
    && HandOver(sh.owner, sh'.owner, t) && HandOver(sh.lock, sh'.lock, t)
    && OwnerOk(sh', OwnerAfter(sh', t, pc', ownerPc))
  }

  lemma EnterKeeps(pc: Pc, sh: Shared, t: nat, ownerPc: Pc)
    requires Local(pc, sh, t, ownerPc) && (pc.Batched? || pc.Entered?)
    ensures var (pc', sh') := Enter(pc, sh, t); Kept(sh, t, ownerPc, pc', sh')
  {
  }

  lemma PassKeeps(pc: Pc, sh: Shared, t: nat, change: bv64, ownerPc: Pc)
    requires Local(pc, sh, t, ownerPc) && InPass(pc)
    ensures var (pc', sh') := Pass(pc, sh, change); Kept(sh, t, ownerPc, pc', sh')
  {
  }

  lemma CloseKeeps(pc: Pc, sh: Shared, t: nat, ownerPc: Pc)
    requires Local(pc, sh, t, ownerPc) && Closing(pc)
    ensures var (pc', sh') := Close(pc, sh); Kept(sh, t, ownerPc, pc', sh')
  {
  }

  lemma RearmKeeps(pc: Pc, sh: Shared, t: nat, ownerPc: Pc)
    requires Local(pc, sh, t, ownerPc) && (pc.RearmWait? || Locked(pc))
    ensures var (pc', sh') := Rearm(pc, sh, t); Kept(sh, t, ownerPc, pc', sh')
  {
    var (pc', sh') := Rearm(pc, sh, t);
    assert OwnerAfter(sh', t, pc', ownerPc) == ownerPc;
    assert sh'.reg == Deleted ==> sh.reg == Deleted;
  }

  lemma ActionKeeps(pc: Pc, sh: Shared, t: nat, change: bv64, ownerPc: Pc)
    requires Local(pc, sh, t, ownerPc)
    ensures var (pc', sh') := Action(pc, sh, t, change); Kept(sh, t, ownerPc, pc', sh')
  {
    if pc.Batched? || pc.Entered? {
      EnterKeeps(pc, sh, t, ownerPc);
    } else if InPass(pc) {
      PassKeeps(pc, sh, t, change, ownerPc);
    } else if Closing(pc) {
      CloseKeeps(pc, sh, t, ownerPc);
    } else {
      RearmKeeps(pc, sh, t, ownerPc);
    }
  }

  ghost predicate OwnerInv(s: State) {
    ThreadsOk(s) && OwnerOk(s.sh, PcAt(s, s.sh.owner))
  }

  lemma OwnerInvStep(s: State, step: Step)
    requires OwnerInv(s) && Enabled(s, step)
    ensures OwnerInv(Next(s, step))
  {
    match step
    case Deliver(t) =>
    case Direct(_) =>
    case Run(t, change) => ActionKeeps(s.pcs[t], s.sh, t, change, PcAt(s, s.sh.owner));
  }

  // ----- never left disarmed -----

  /** Threads that will still rearm an unfinished holder with flags they have yet to read. */
  predicate WillRead(pc: Pc) { Owning(pc) || pc == RearmWait }

  predicate WillArm(pc: Pc) { pc == Batched || WillRead(pc) || Locked(pc) }

  ghost predicate Arming(pcs: seq<Pc>) { exists i :: 0 <= i < |pcs| && WillArm(pcs[i]) }

  ghost predicate Rereading(pcs: seq<Pc>) { exists i :: 0 <= i < |pcs| && WillRead(pcs[i]) }

  /** The mask the lock holder is about to arm is not the one the holder wants. */
  predicate StaleRead(sh: Shared, lockPc: Pc) {
    match lockPc
    case RearmWrite(read) => read != sh.flags.handleRead
    case RearmCtl(read, write) => Mask(read, write) != sh.flags.Wanted()
    case _ => false
  }

  predicate StaleMask(sh: Shared) {
    sh.reg.Armed? && !sh.direct && sh.reg.mask != sh.flags.Wanted()
  }

  /** An unfinished holder is armed or some thread will still arm it; a stale mask, armed or
      about to be armed, is backed by a thread that will read the flags again. */
  ghost predicate ArmedInv(s: State) {
    !s.sh.finished ==>
      && (s.sh.reg == Disarmed ==> Arming(s.pcs))
      && (StaleMask(s.sh) ==> Rereading(s.pcs) || s.sh.lock != -1)
      && (StaleRead(s.sh, PcAt(s, s.sh.lock)) ==> Rereading(s.pcs))
  }

  /** What one action on a holder still unfinished afterwards does to the arming. */
  predicate ArmKept(pc: Pc, sh: Shared, t: nat, pc': Pc, sh': Shared) {
    && !sh.finished
    && (sh'.flags != sh.flags ==> WillRead(pc'))
    && (WillRead(pc) && !WillRead(pc') ==> pc == RearmWait && sh'.lock == t)
    && (WillArm(pc) && sh'.reg == Disarmed ==>
          sh.reg == Disarmed && (WillArm(pc') || (sh.owner != -1 && sh.owner != t)))
    && (StaleMask(sh') && sh'.flags == sh.flags ==>
          if sh.lock == t && sh'.lock == -1 then StaleRead(sh, pc) else StaleMask(sh))
    && (Locked(pc') && StaleRead(sh', pc') ==> sh.lock == t && StaleRead(sh, pc))
  }

  lemma EnterArms(pc: Pc, sh: Shared, t: nat, ownerPc: Pc)
    requires Local(pc, sh, t, ownerPc) && (pc.Batched? || pc.Entered?)
    ensures var (pc', sh') := Enter(pc, sh, t); !sh'.finished ==> ArmKept(pc, sh, t, pc', sh')
  {
  }

  lemma PassArms(pc: Pc, sh: Shared, t: nat, change: bv64, ownerPc: Pc)
    requires Local(pc, sh, t, ownerPc) && InPass(pc)
    ensures var (pc', sh') := Pass(pc, sh, change); !sh'.finished ==> ArmKept(pc, sh, t, pc', sh')
  {
  }

  lemma RearmArms(pc: Pc, sh: Shared, t: nat, ownerPc: Pc)
    requires Local(pc, sh, t, ownerPc) && (pc.RearmWait? || Locked(pc))
    ensures var (pc', sh') := Rearm(pc, sh, t); !sh'.finished ==> ArmKept(pc, sh, t, pc', sh')
  {
  }

  lemma ActionArms(pc: Pc, sh: Shared, t: nat, change: bv64, ownerPc: Pc)
    requires Local(pc, sh, t, ownerPc)
    ensures var (pc', sh') := Action(pc, sh, t, change);
      !sh'.finished ==> ArmKept(pc, sh, t, pc', sh')
  {
    if pc.Batched? || pc.Entered? {
      EnterArms(pc, sh, t, ownerPc);
    } else if InPass(pc) {
      PassArms(pc, sh, t, change, ownerPc);
    } else if Closing(pc) {
      assert sh.finished;
    } else {
      RearmArms(pc, sh, t, ownerPc);
    }
  }

  ghost predicate Inv(s: State) { OwnerInv(s) && ArmedInv(s) }

  /** A witness among the threads other than t survives t's action. */
  lemma OthersStay(pcs: seq<Pc>, t: nat, pc': Pc)
    requires t < |pcs|
    ensures Rereading(pcs) && (WillRead(pcs[t]) ==> WillRead(pc')) ==> Rereading(pcs[t := pc'])
    ensures Arming(pcs) && (WillArm(pcs[t]) ==> WillArm(pc')) ==> Arming(pcs[t := pc'])
    ensures WillRead(pc') ==> Rereading(pcs[t := pc'])
  {
    var pcs' := pcs[t := pc'];
    assert pcs'[t] == pc';
    if Rereading(pcs) {
      var i :| 0 <= i < |pcs| && WillRead(pcs[i]);
      assert i != t ==> pcs'[i] == pcs[i];
    }
    if Arming(pcs) {
      var i :| 0 <= i < |pcs| && WillArm(pcs[i]);
      assert i != t ==> pcs'[i] == pcs[i];
    }
  }

  lemma RunArms(s: State, t: nat, change: bv64)
    requires Inv(s) && Enabled(s, Run(t, change))
    ensures ArmedInv(Next(s, Run(t, change)))
  {
    var pc, sh := s.pcs[t], s.sh;
    var (pc', sh') := Action(pc, sh, t, change);
    var ownerPc := PcAt(s, sh.owner);
    ActionKeeps(pc, sh, t, change, ownerPc);
    ActionArms(pc, sh, t, change, ownerPc);
    OthersStay(s.pcs, t, pc');
    var pcs' := s.pcs[t := pc'];
    if !sh'.finished {
      if sh'.reg == Disarmed && !(WillArm(pc) ==> WillArm(pc')) {
        assert pcs'[sh.owner] == s.pcs[sh.owner];
      }
    }
  }

  lemma InitialOwner(s: State)
    requires Initial(s)
    ensures OwnerInv(s)
  {
  }

  lemma InitialArmed(s: State)
    requires Initial(s)
    ensures ArmedInv(s)
  {
  }

  lemma InvStep(s: State, step: Step, s': State)
    requires Inv(s) && Stepped(s, step, s')
    ensures Inv(s')
  {
    OwnerInvStep(s, step);
    match step
    case Deliver(t) =>
      OthersStay(s.pcs, t, Batched);
      assert s.pcs[t := Batched][t] == Batched;
    case Direct(_) =>
    case Run(t, change) => RunArms(s, t, change);
  }

  // ----- theorems over whole runs -----

  predicate StepAt(states: seq<State>, steps: seq<Step>, k: int) {
    0 <= k < |steps| && k + 1 < |states| && Stepped(states[k], steps[k], states[k + 1])
  }

  ghost predicate IsRun(states: seq<State>, steps: seq<Step>) {
    && |states| == |steps| + 1 && Initial(states[0])
    && forall k :: 0 <= k < |steps| ==> StepAt(states, steps, k)
  }

  lemma {:induction false} RunInv(states: seq<State>, steps: seq<Step>, n: nat)
    requires IsRun(states, steps) && n <= |steps|
    ensures Inv(states[n])
  {
    if n == 0 {
      InitialOwner(states[0]);
      InitialArmed(states[0]);
    } else {
      RunInv(states, steps, n - 1);
      assert StepAt(states, steps, n - 1);
      InvStep(states[n - 1], steps[n - 1], states[n]);
    }
  }

  /** At most one thread is inside the elected section, and the counter is exactly the number of
      notifications that no completed pass has answered. */
  lemma SingleOwner(states: seq<State>, steps: seq<Step>, n: nat, i: nat, j: nat)
    requires IsRun(states, steps) && n <= |steps|
    requires i < |states[n].pcs| && j < |states[n].pcs|
    requires Owning(states[n].pcs[i]) && Owning(states[n].pcs[j])
    ensures i == j
    ensures states[n].sh.notified == states[n].sh.completed + states[n].sh.inProgress
  {
    RunInv(states, steps, n);
    assert ThreadOk(states[n].pcs[i], states[n].sh.owner == i, states[n].sh.lock == i);
    assert ThreadOk(states[n].pcs[j], states[n].sh.owner == j, states[n].sh.lock == j);
  }

  /** No thread holds an event for the holder or is handling one. */
  ghost predicate Quiet(s: State) {
    forall i :: 0 <= i < |s.pcs| ==> s.pcs[i] == Waiting || s.pcs[i] == Failed
  }

  /** The step registers the descriptor anew. */
  predicate Arms(s: State, step: Step) {
    step.Direct? || (step.Run? && step.t < |s.pcs| && s.pcs[step.t].RearmCtl?)
  }

  lemma {:induction false} StaysDisarmed(states: seq<State>, steps: seq<Step>, k: nat, n: nat)
    requires IsRun(states, steps) && k < n <= |steps| && steps[k].Deliver?
    requires forall j :: k < j < n ==> !Arms(states[j], steps[j])
    ensures !states[n].sh.reg.Armed?
    decreases n
  {
    assert StepAt(states, steps, n - 1);
    if k < n - 1 {
      StaysDisarmed(states, steps, k, n - 1);
      assert !Arms(states[n - 1], steps[n - 1]);
    }
  }

  /** The descriptor is one-shot: between two deliveries it is armed again. */
  lemma OneShot(states: seq<State>, steps: seq<Step>, k: nat, n: nat)
    requires IsRun(states, steps) && k < n < |steps| && steps[k].Deliver? && steps[n].Deliver?
    ensures exists j :: k < j < n && Arms(states[j], steps[j])
  {
    assert StepAt(states, steps, n);
    if forall j :: k < j < n ==> !Arms(states[j], steps[j]) {
      StaysDisarmed(states, steps, k, n);
    }
  }

  /** A descriptor last armed by a direct call waits for what that call asked for. */
  lemma {:induction false} DirectMask(states: seq<State>, steps: seq<Step>, n: nat) returns (k: int)
    requires IsRun(states, steps) && n <= |steps| && states[n].sh.direct && states[n].sh.reg.Armed?
    ensures 0 <= k < n && steps[k] == Direct(states[n].sh.reg.mask)
    decreases n
  {
    assert n > 0;
    assert StepAt(states, steps, n - 1);
    if steps[n - 1].Direct? {
      k := n - 1;
    } else {
      k := DirectMask(states, steps, n - 1);
    }
  }

  /** An unfinished holder at rest is armed, with its current flags unless the latest arming was
      a direct rearm call, and then with what that call asked for. */
  lemma NoStalledDescriptor(states: seq<State>, steps: seq<Step>, n: nat)
    requires IsRun(states, steps) && n <= |steps|
    requires Quiet(states[n]) && !states[n].sh.finished
    ensures states[n].sh.reg.Armed?
    ensures (forall k :: 0 <= k < n ==> !steps[k].Direct?) ==> !states[n].sh.direct
    ensures !states[n].sh.direct ==> states[n].sh.reg == Armed(states[n].sh.flags.Wanted())
    ensures states[n].sh.direct ==> exists k :: 0 <= k < n && steps[k] == Direct(states[n].sh.reg.mask)
  {
    RunInv(states, steps, n);
    if states[n].sh.direct {
      var k := DirectMask(states, steps, n);
    }
    if forall k :: 0 <= k < n ==> !steps[k].Direct? {
      NoDirect(states, steps, n);
    }
  }

  lemma {:induction false} NoDirect(states: seq<State>, steps: seq<Step>, n: nat)
    requires IsRun(states, steps) && n <= |steps|
    requires forall k :: 0 <= k < n ==> !steps[k].Direct?
    ensures !states[n].sh.direct
  {
    if n > 0 {
      NoDirect(states, steps, n - 1);
      assert StepAt(states, steps, n - 1);
    }
  }

  /** Every notification is followed by a pass that starts after it, or the holder has been
      closed, or the owner is bound to start one: it has just been elected, or the counter will
      send it round the loop again.  So a holder whose counter is back at zero has served every
      notification. */
  lemma NotificationIsServed(states: seq<State>, steps: seq<Step>, k: nat, n: nat)
    requires IsRun(states, steps) && k < n <= |steps|
    requires Notifies(states[k], steps[k])
    ensures
      || (exists j :: k < j < n && StartsPass(states[j], steps[j]))
      || states[n].sh.finished
      || (states[n].sh.inProgress > 0 && 0 <= states[n].sh.owner < |states[n].pcs|
          && (states[n].pcs[states[n].sh.owner] == Entered(0) || states[n].sh.inProgress > 1))
    ensures states[n].sh.inProgress == 0 ==> exists j :: k < j < n && StartsPass(states[j], steps[j])
  {
    if !exists j :: k < j < n && StartsPass(states[j], steps[j]) {
      StillDue(states, steps, k, n);
    }
    RunInv(states, steps, n);
  }

  /** When everything is at rest every earlier notification has been followed by the start of a pass,
      or the holder is finished. */
  lemma ServedAtRest(states: seq<State>, steps: seq<Step>, k: nat, n: nat)
    requires IsRun(states, steps) && k < n <= |steps|
    requires Notifies(states[k], steps[k]) && Quiet(states[n])
    ensures states[n].sh.finished || exists j :: k < j < n && StartsPass(states[j], steps[j])
  {
    NotificationIsServed(states, steps, k, n);
    RunInv(states, steps, n);
    NoOwnerAtRest(states[n]);
  }

  lemma NoOwnerAtRest(s: State)
    requires Inv(s) && Quiet(s)
    ensures s.sh.owner == -1 && (s.sh.inProgress == 0 || s.sh.finished)
  {
    assert forall i :: 0 <= i < |s.pcs| ==> !Owning(s.pcs[i]);
    assert forall i :: 0 <= i < |s.pcs| ==> ThreadOk(s.pcs[i], s.sh.owner == i, s.sh.lock == i);
  }

  lemma {:induction false} StillDue(states: seq<State>, steps: seq<Step>, k: nat, n: nat)
    requires IsRun(states, steps) && k < n <= |steps|
    requires Notifies(states[k], steps[k])
    requires forall j :: k < j < n ==> !StartsPass(states[j], steps[j])
    ensures states[n].sh.passDue
  {
    assert StepAt(states, steps, n - 1);
    if n > k + 1 {
      StillDue(states, steps, k, n - 1);
      assert !StartsPass(states[n - 1], steps[n - 1]);
    }
  }

  /** Nothing closed is opened again. */
  predicate StillClosed(sh: Shared, sh': Shared) {
    && (sh.flags.readClosed ==> sh'.flags.readClosed)
    && (sh.flags.writeClosed ==> sh'.flags.writeClosed)
    && (sh.finished ==> sh'.finished)
  }

  lemma PassKeepsClosed(pc: Pc, sh: Shared, change: bv64)
    requires InPass(pc)
    ensures StillClosed(sh, Pass(pc, sh, change).1)
  {
  }

  lemma ActionKeepsClosed(pc: Pc, sh: Shared, t: nat, change: bv64)
    requires CanRun(pc, sh)
    ensures StillClosed(sh, Action(pc, sh, t, change).1)
  {
    if InPass(pc) {
      PassKeepsClosed(pc, sh, change);
    }
  }

  lemma StepKeepsClosed(s: State, step: Step, s': State)
    requires Stepped(s, step, s')
    ensures StillClosed(s.sh, s'.sh)
  {
    if step.Run? {
      ActionKeepsClosed(s.pcs[step.t], s.sh, step.t, step.change);
    }
  }

  /** The closed flags and handling_finished are never cleared. */
  lemma {:induction false} ClosedStays(states: seq<State>, steps: seq<Step>, i: nat, n: nat)
    requires IsRun(states, steps) && i <= n <= |steps|
    ensures StillClosed(states[i].sh, states[n].sh)
  {
    if n > i {
      ClosedStays(states, steps, i, n - 1);
      assert StepAt(states, steps, n - 1);
      StepKeepsClosed(states[n - 1], steps[n - 1], states[n]);
    }
  }

  /** Once both closed flags are set, the counter never returns to zero and no pass ever starts;
      stopped() and the cleaner push happen at most once, in this order, and exactly once by the
      time a finished holder is at rest.  By then, and from before the call of stopped() on, the
      descriptor is out of epoll for good: no event is delivered and no direct call can arm it. */
  lemma ClosingIsFinal(states: seq<State>, steps: seq<Step>, i: nat, n: nat)
    requires IsRun(states, steps) && i <= n <= |steps|
    requires states[i].sh.flags.Closed()
    ensures states[n].sh.flags.Closed() && states[n].sh.inProgress > 0
    ensures n < |steps| ==> !StartsPass(states[n], steps[n])
    ensures states[n].sh.pushes <= states[n].sh.stoppedCalls <= 1
    ensures Quiet(states[n]) ==> states[n].sh.stoppedCalls == states[n].sh.pushes == 1
    ensures states[n].sh.stoppedCalls > 0 ==> states[n].sh.reg == Deleted
    ensures n < |steps| && states[n].sh.stoppedCalls > 0 ==> steps[n].Run?
  {
    RunInv(states, steps, n);
    ClosedStays(states, steps, i, n);
    var s := states[n];
    var ownerPc := PcAt(s, s.sh.owner);
    if s.sh.owner != -1 {
      assert ThreadOk(ownerPc, true, s.sh.lock == s.sh.owner);
    }
    if n < |steps| {
      assert StepAt(states, steps, n);
      if steps[n].Run? {
        var t := steps[n].t;
        assert ThreadOk(s.pcs[t], s.sh.owner == t, s.sh.lock == t);
      }
    }
  }

  /** A thread's local rearm_fd tells whether it is past its first pass. */
  predicate PassesOk(sh: Shared, pc: Pc) {
    && (InPass(pc) ==> sh.passes > 0)
    && ((InPass(pc) && pc != LoopTest) || Closing(pc) ==> pc.rearm == (sh.passes > 1))
  }

  lemma PassesStep(pc: Pc, sh: Shared, t: nat, change: bv64)
    requires CanRun(pc, sh) && PassesOk(sh, pc) && (pc.Entered? ==> pc.prev >= 0)
    ensures var (pc', sh') := Action(pc, sh, t, change);
      PassesOk(sh', pc') && (sh'.passes != sh.passes ==> Owning(pc))
  {
  }

  lemma {:induction false} PassesInRuns(states: seq<State>, steps: seq<Step>, n: nat, t: nat)
    requires IsRun(states, steps) && n <= |steps| && t < |states[n].pcs|
    ensures PassesOk(states[n].sh, states[n].pcs[t])
    decreases n
  {
    if n > 0 {
      var s, step := states[n - 1], steps[n - 1];
      assert StepAt(states, steps, n - 1);
      RunInv(states, steps, n - 1);
      PassesInRuns(states, steps, n - 1, t);
      if step.Run? {
        PassesInRuns(states, steps, n - 1, step.t);
        PassesRun(s, step.t, step.change, t);
      }
    }
  }

  /** No action of another thread makes what a rearm_fd tells untrue. */
  lemma PassesRun(s: State, u: nat, change: bv64, t: nat)
    requires Inv(s) && Enabled(s, Run(u, change)) && t < |s.pcs|
    requires PassesOk(s.sh, s.pcs[t]) && PassesOk(s.sh, s.pcs[u])
    ensures PassesOk(Next(s, Run(u, change)).sh, Next(s, Run(u, change)).pcs[t])
  {
    assert ThreadOk(s.pcs[t], s.sh.owner == t, s.sh.lock == t);
    assert ThreadOk(s.pcs[u], s.sh.owner == u, s.sh.lock == u);
    PassesStep(s.pcs[u], s.sh, u, change);
  }

  /** The thread that closes a holder goes on to rearm it exactly when it closed it in a second or later
      pass since it was elected. */
  lemma RearmsAfterClosing(states: seq<State>, steps: seq<Step>, n: nat, t: nat)
    requires IsRun(states, steps) && n < |steps| && steps[n].Run? && steps[n].t == t
    requires t < |states[n].pcs| && states[n].pcs[t].Pushing?
    ensures t < |states[n + 1].pcs|
    ensures states[n + 1].pcs[t] == if states[n].sh.passes > 1 then RearmWait else Waiting
  {
    PassesInRuns(states, steps, n, t);
    assert StepAt(states, steps, n);
  }

  /** Rearming fails only on a holder that has been taken out of epoll. */
  lemma {:induction false} FailsOnlyDeleted(states: seq<State>, steps: seq<Step>, n: nat, t: nat)
    requires IsRun(states, steps) && n <= |steps| && t < |states[n].pcs| && states[n].pcs[t] == Failed
    ensures states[n].sh.finished && states[n].sh.reg == Deleted
    decreases n
  {
    if n > 0 {
      assert StepAt(states, steps, n - 1);
      RunInv(states, steps, n);
      if states[n - 1].pcs[t] == Failed {
        FailsOnlyDeleted(states, steps, n - 1, t);
      }
      FailedStep(states[n - 1], steps[n - 1], states[n], t);
    }
  }

  lemma FailedStep(s: State, step: Step, s': State, t: nat)
    requires Stepped(s, step, s') && t < |s'.pcs| && s'.pcs[t] == Failed
    requires s.pcs[t] == Failed ==> s.sh.reg == Deleted
    ensures s'.sh.reg == Deleted
  {
  }

  /** Before the holder is closed neither has happened. */
  lemma NotStoppedBefore(states: seq<State>, steps: seq<Step>, n: nat)
    requires IsRun(states, steps) && n <= |steps|
    requires !states[n].sh.flags.Closed()
    ensures states[n].sh.stoppedCalls == states[n].sh.pushes == 0
  {
    RunInv(states, steps, n);
  }

  /** An open holder that wants neither direction, with no store of a wanted flag under way. */
  ghost predicate Muted(s: State) {
    && s.sh.flags.Wanted() == Mask(false, false) && !s.sh.flags.Closed() && !s.sh.finished
    && forall i :: 0 <= i < |s.pcs| ==> !s.pcs[i].AfterRead? && !s.pcs[i].AfterWrite?
  }

  lemma ActionStaysMuted(pc: Pc, sh: Shared, t: nat, change: bv64)
    requires CanRun(pc, sh) && !pc.AfterRead? && !pc.AfterWrite?
    requires sh.flags.Wanted() == Mask(false, false) && !sh.flags.Closed() && !sh.finished
    ensures var (pc', sh') := Action(pc, sh, t, change);
      !pc'.AfterRead? && !pc'.AfterWrite? && sh'.flags == sh.flags && (pc.Deleting? || !sh'.finished)
  {
  }

  lemma MutedStep(s: State, step: Step, s': State)
    requires Stepped(s, step, s') && Muted(s)
    ensures Muted(s') && s'.sh.flags == s.sh.flags
  {
    if step.Run? {
      ActionStaysMuted(s.pcs[step.t], s.sh, step.t, step.change);
    }
  }

  /** Such a holder stays open for ever: no handler is called again, and it is never stopped nor
      given to the cleaner, whatever events and direct rearm calls still come. */
  lemma {:induction false} MutedStays(states: seq<State>, steps: seq<Step>, i: nat, n: nat)
    requires IsRun(states, steps) && i <= n <= |steps| && Muted(states[i])
    ensures Muted(states[n]) && states[n].sh.flags == states[i].sh.flags
    ensures !states[n].sh.finished && states[n].sh.stoppedCalls == states[n].sh.pushes == 0
    decreases n
  {
    if i < n {
      MutedStays(states, steps, i, n - 1);
      assert StepAt(states, steps, n - 1);
      MutedStep(states[n - 1], steps[n - 1], states[n]);
    }
    NotStoppedBefore(states, steps, n);
  }

  // ----- progress: between deliveries the poller comes to rest -----

  function Rank(pc: Pc): nat {
    match pc
    case Batched => 20
    case Entered(_) => 13
    case PassRead(_) => 12
    case AfterRead(_, _) => 11
    case PassWrite(_) => 10
    case AfterWrite(_, _) => 9
    case PassCheck(_) => 8
    case LoopTest => 7
    case Deleting(_) => 7
    case Stopping(_) => 6
    case Pushing(_) => 5
    case RearmWait => 4
    case RearmRead => 3
    case RearmWrite(_) => 2
    case RearmCtl(_, _) => 1
    case Waiting => 0
    case Failed => 0
  }

  function Ranks(pcs: seq<Pc>): (ws: seq<int>)
    ensures |ws| == |pcs| && forall i :: 0 <= i < |pcs| ==> ws[i] == Rank(pcs[i])
  {
    seq(|pcs|, i requires 0 <= i < |pcs| => Rank(pcs[i]))
  }

  /** Bounds the actions the threads can still take before everything is at rest. */
  function Work(s: State): int { Total(Ranks(s.pcs)) + 6 * s.sh.inProgress }

  lemma ActionWorks(pc: Pc, sh: Shared, t: nat, change: bv64)
    requires CanRun(pc, sh)
    ensures var (pc', sh') := Action(pc, sh, t, change);
      Rank(pc') + 6 * sh'.inProgress < Rank(pc) + 6 * sh.inProgress
  {
  }

  lemma RunWorks(s: State, step: Step, s': State)
    requires Stepped(s, step, s') && step.Run?
    ensures Work(s') < Work(s)
  {
    var t := step.t;
    var (pc', sh') := Action(s.pcs[t], s.sh, t, step.change);
    ActionWorks(s.pcs[t], s.sh, t, step.change);
    TotalUpdate(Ranks(s.pcs), t, Rank(pc'));
    assert Ranks(s.pcs[t := pc']) == Ranks(s.pcs)[t := Rank(pc')];
  }

  lemma WorkNonNegative(s: State)
    requires Inv(s)
    ensures Work(s) >= 0
  {
    TotalNonNegative(Ranks(s.pcs));
  }

  /** Some thread can act unless everything is at rest: the rearm lock never blocks them all. */
  lemma SomeThreadRuns(s: State) returns (t: nat)
    requires Inv(s) && !Quiet(s)
    ensures t < |s.pcs| && CanRun(s.pcs[t], s.sh)
  {
    t :| t < |s.pcs| && s.pcs[t] != Waiting && s.pcs[t] != Failed;
    if s.pcs[t] == RearmWait && s.sh.lock != -1 {
      t := s.sh.lock;
      assert ThreadOk(s.pcs[t], s.sh.owner == t, true);
    }
  }

  /** From any point of any run, however the threads are scheduled, at most Work(states[n])
      further actions fit before the next delivery or direct call: the poller comes to rest. */
  lemma {:induction false} ComesToRest(states: seq<State>, steps: seq<Step>, n: nat, m: nat)
    requires IsRun(states, steps) && n <= m <= |steps|
    requires forall k :: n <= k < m ==> steps[k].Run?
    ensures m - n <= Work(states[n]) - Work(states[m])
    ensures Work(states[m]) >= 0
    decreases m
  {
    if m == n {
      RunInv(states, steps, m);
      WorkNonNegative(states[m]);
    } else {
      ComesToRest(states, steps, n, m - 1);
      assert StepAt(states, steps, m - 1);
      RunWorks(states[m - 1], steps[m - 1], states[m]);
      RunInv(states, steps, m);
      WorkNonNegative(states[m]);
    }
  }
}
