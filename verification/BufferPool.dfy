/** ThreadBuffer: a static pool of buffers handed out one per thread, with heap buffers when the
    pool is empty.  A step is one atomic action of one thread inside get_buffer or in the key
    destructor free_buffer_ that runs when it exits. */
module BufferPool {
  import opened Options

  datatype Buffer = Pool(i: nat) | Heap(id: nat)

  /** The stack under the mutex: buffer_pointers_ and available_. */
  datatype Stack = Stack(pointers: seq<Buffer>, available: nat) {
    predicate Valid() { available <= |pointers| }

    function Free(): seq<Buffer>
      requires Valid()
    {
      pointers[..available]
    }
  }

  /** The effects of the two critical sections, for the step system and for the methods below. */
  function Top(s: Stack): Buffer
    requires s.Valid() && s.available > 0
  {
    s.pointers[s.available - 1]
  }

  function Popped(s: Stack): (r: Stack)
    requires s.Valid() && s.available > 0
    ensures r.Valid() && s.Free() == r.Free() + [Top(s)]
  {
    s.(available := s.available - 1)
  }

  function Pushed(s: Stack, b: Buffer): (r: Stack)
    requires s.available < |s.pointers|
    ensures r.Valid() && r.Free() == s.Free() + [b]
  {
    Stack(s.pointers[s.available := b], s.available + 1)
  }

  /** The static members under mutex_, with the two critical sections as methods. */
  class ThreadBuffer {
    const bufferPointers: array<Buffer>
    var available: nat

    function Value(): Stack
      reads this, bufferPointers
    {
      Stack(bufferPointers[..], available)
    }

    constructor (threads: nat)
      ensures fresh(bufferPointers)
      ensures Value() == Stack(AllPool(threads), threads)
    {
      bufferPointers := new Buffer[threads](_ => Heap(0));
      available := 0;
      new;
      while available < threads
        invariant available <= threads && fresh(bufferPointers) && bufferPointers.Length == threads
        invariant forall k :: 0 <= k < available ==> bufferPointers[k] == Pool(k)
        modifies this, bufferPointers
      {
        bufferPointers[available] := Pool(available);
        available := available + 1;
      }
      assert bufferPointers[..] == AllPool(threads);
    }

    /** The locked block of get_buffer. */
    method Take() returns (taken: bool, buffer: Buffer)
      requires Value().Valid()
      modifies this
      ensures Value().Valid() && taken == (old(available) > 0)
      ensures taken ==> Value() == Popped(old(Value())) && buffer == Top(old(Value()))
      ensures !taken ==> Value() == old(Value())
    {
      taken, buffer := available > 0, Heap(0);
      if taken {
        available := available - 1;
        buffer := bufferPointers[available];
      }
    }

    /** The locked block of free_buffer_. */
    method Give(buffer: Buffer)
      requires available < bufferPointers.Length
      modifies this, bufferPointers
      ensures Value() == Pushed(old(Value()), buffer)
    {
      bufferPointers[available] := buffer;
      available := available + 1;
    }
  }

  // ----- the step system -----

  datatype Pc =
    | Idle
    | Locking                     // its key was empty: the locked block is next
    | NeedHeap                    // the pool was empty: new char[] is next
    | Typing(buffer: Buffer)      // heap buffer allocated: type_key_.set_data is next
    | Publishing(buffer: Buffer)  // buffer_key_.set_data is next
    | Freeing(buffer: Buffer)     // the thread is exiting: free_buffer_ is next
    | Dead

  /** One thread: its place, its buffer_key_ and whether its type_key_ is set. */
  datatype Slot = Slot(pc: Pc, key: Option<Buffer>, typed: bool) {
    function Held(): multiset<Buffer> {
      match pc
      case Typing(b) => multiset{b}
      case Publishing(b) => multiset{b}
      case Freeing(b) => multiset{b}
      case _ => if key.Some? then multiset{key.value} else multiset{}
    }
  }

  /** `heap` is the set of heap buffers allocated and not deleted, `next` the next fresh one. */
  datatype State = State(stack: Stack, heap: set<nat>, next: nat, slots: seq<Slot>)

  /** What an idle thread does, or whether an allocation succeeds. */
  datatype Choice = Get | Exit | Fail

  function AllPool(threads: nat): seq<Buffer> { seq(threads, i requires 0 <= i => Pool(i)) }

  predicate Initial(s: State) {
    && s.stack == Stack(AllPool(|s.stack.pointers|), |s.stack.pointers|)
    && s.heap == {} && s.next == 0
    && forall t :: 0 <= t < |s.slots| ==> s.slots[t] == Slot(Idle, None, false)
  }

  predicate Enabled(s: State, t: nat) {
    && t < |s.slots| && s.slots[t].pc != Dead && s.stack.Valid()
    && (s.slots[t].pc.Freeing? && !s.slots[t].typed ==> s.stack.available < |s.stack.pointers|)
    && (s.slots[t].pc.Freeing? && s.slots[t].typed ==> s.slots[t].pc.buffer.Heap?)
  }

  function Next(s: State, t: nat, choice: Choice): State
    requires Enabled(s, t)
  {
    var slot := s.slots[t];
    match slot.pc
    case Idle =>
      if choice == Exit then
        if slot.key.Some?
        then s.(slots := s.slots[t := Slot(Freeing(slot.key.value), None, slot.typed)])
        else s.(slots := s.slots[t := slot.(pc := Dead)])
      else s.(slots := s.slots[t := slot.(pc := if slot.key.Some? then Idle else Locking)])
    case Locking =>
      if s.stack.available > 0 then
        s.(stack := Popped(s.stack), slots := s.slots[t := slot.(pc := Publishing(Top(s.stack)))])
      else s.(slots := s.slots[t := slot.(pc := NeedHeap)])
    case NeedHeap =>
      if choice == Fail then s.(slots := s.slots[t := slot.(pc := Idle)])
      else s.(heap := s.heap + {s.next}, next := s.next + 1,
              slots := s.slots[t := slot.(pc := Typing(Heap(s.next)))])
    case Typing(b) => s.(slots := s.slots[t := slot.(pc := Publishing(b), typed := true)])
    case Publishing(b) => s.(slots := s.slots[t := slot.(pc := Idle, key := Some(b))])
    case Freeing(b) =>
      if slot.typed
      then s.(heap := s.heap - {b.id}, slots := s.slots[t := slot.(pc := Dead)])
      else s.(stack := Pushed(s.stack, b), slots := s.slots[t := slot.(pc := Dead)])
    case Dead => s
  }

  // ----- the partition -----

  function Held(slots: seq<Slot>): multiset<Buffer> {
    if slots == [] then multiset{} else slots[0].Held() + Held(slots[1..])
  }

  lemma {:induction false} HeldSplit(slots: seq<Slot>, t: nat)
    requires t < |slots|
    ensures Held(slots) == slots[t].Held() + Held(slots[..t]) + Held(slots[t + 1..])
  {
    if t > 0 {
      HeldSplit(slots[1..], t - 1);
      assert slots[..t][1..] == slots[1..][..t - 1];
      assert slots[1..][t..] == slots[t + 1..];
    }
  }

  lemma HeldUpdate(slots: seq<Slot>, t: nat, slot: Slot)
    requires t < |slots|
    ensures Held(slots[t := slot]) + slots[t].Held() == Held(slots) + slot.Held()
  {
    HeldSplit(slots, t);
    HeldSplit(slots[t := slot], t);
    assert slots[t := slot][..t] == slots[..t] && slots[t := slot][t + 1..] == slots[t + 1..];
  }

  lemma {:induction false} HeldContains(slots: seq<Slot>, t: nat, b: Buffer)
    requires t < |slots|
    ensures slots[t].Held()[b] <= Held(slots)[b]
  {
    if t > 0 {
      HeldContains(slots[1..], t - 1, b);
    }
  }

  /** Every buffer there is: the static ones and the live heap ones. */
  function Universe(threads: nat, heap: set<nat>): set<Buffer> {
    (set i | 0 <= i < threads :: Pool(i)) + (set h | h in heap :: Heap(h))
  }

  predicate SlotOk(slot: Slot) {
    && (slot.pc.Typing? ==> slot.pc.buffer.Heap? && slot.key.None? && !slot.typed)
    && (slot.pc.Publishing? || slot.pc.Freeing? ==> slot.key.None? && slot.pc.buffer.Heap? == slot.typed)
    && (slot.pc == Idle ==> (slot.key.Some? && slot.key.value.Heap? <==> slot.typed))
    && (slot.pc == Locking || slot.pc == NeedHeap ==> slot.key.None? && !slot.typed)
    && (slot.pc == Dead ==> slot.key.None?)
  }

  ghost predicate SlotsOk(s: State) {
    && s.stack.Valid()
    && (forall t :: 0 <= t < |s.slots| ==> SlotOk(s.slots[t]))
    && (forall k :: 0 <= k < s.stack.available ==> s.stack.pointers[k].Pool?)
    && (forall h :: h in s.heap ==> h < s.next)
  }

  ghost predicate Partition(s: State)
    requires s.stack.Valid()
  {
    multiset(s.stack.Free()) + Held(s.slots) == multiset(Universe(|s.stack.pointers|, s.heap))
  }

  ghost predicate Inv(s: State) { SlotsOk(s) && Partition(s) }

  /** The partition is kept when what one thread gains is what the stack or the heap loses. */
  lemma Balance(s: State, t: nat, s': State)
    requires SlotsOk(s) && Partition(s) && s'.stack.Valid() && t < |s.slots| == |s'.slots|
    requires s'.slots == s.slots[t := s'.slots[t]]
    requires multiset(s'.stack.Free()) + s'.slots[t].Held() + multiset(Universe(|s.stack.pointers|, s.heap)) ==
             multiset(s.stack.Free()) + s.slots[t].Held() + multiset(Universe(|s'.stack.pointers|, s'.heap))
    ensures Partition(s')
  {
    HeldUpdate(s.slots, t, s'.slots[t]);
    Cancel(multiset(s.stack.Free()), Held(s.slots), multiset(Universe(|s.stack.pointers|, s.heap)),
           multiset(s'.stack.Free()), Held(s'.slots), multiset(Universe(|s'.stack.pointers|, s'.heap)),
           s.slots[t].Held(), s'.slots[t].Held());
  }

  lemma Cancel(f: multiset<Buffer>, h: multiset<Buffer>, u: multiset<Buffer>,
               f': multiset<Buffer>, h': multiset<Buffer>, u': multiset<Buffer>,
               x: multiset<Buffer>, x': multiset<Buffer>)
    requires f + h == u && h' + x == h + x' && f' + x' + u == f + x + u'
    ensures f' + h' == u'
  {
    forall b: Buffer
      ensures (f' + h')[b] == u'[b]
    {
      assert (f + h)[b] == u[b];
      assert (h' + x)[b] == (h + x')[b];
      assert (f' + x' + u)[b] == (f + x + u')[b];
    }
  }

  lemma {:induction false} NothingHeld(slots: seq<Slot>)
    requires forall t :: 0 <= t < |slots| ==> slots[t].Held() == multiset{}
    ensures Held(slots) == multiset{}
  {
    if slots != [] {
      NothingHeld(slots[1..]);
    }
  }

  lemma {:induction false} AllPoolIsUniverse(threads: nat)
    ensures multiset(AllPool(threads)) == multiset(Universe(threads, {}))
  {
    if threads == 0 {
      assert AllPool(0) == [];
    } else {
      AllPoolIsUniverse(threads - 1);
      assert AllPool(threads) == AllPool(threads - 1) + [Pool(threads - 1)];
      assert Universe(threads, {}) == Universe(threads - 1, {}) + {Pool(threads - 1)};
    }
  }

  lemma InitialInv(s: State)
    requires Initial(s)
    ensures Inv(s)
  {
    NothingHeld(s.slots);
    AllPoolIsUniverse(|s.stack.pointers|);
    assert s.stack.Free() == AllPool(|s.stack.pointers|);
  }

  /** A static buffer on its way back always finds room: the stack never overflows. */
  lemma RoomToFree(s: State, t: nat)
    requires Inv(s) && t < |s.slots| && s.slots[t].pc.Freeing? && !s.slots[t].typed
    ensures s.stack.available < |s.stack.pointers|
  {
    var b := s.slots[t].pc.buffer;
    var n := |s.stack.pointers|;
    HeldContains(s.slots, t, b);
    assert SlotOk(s.slots[t]);
    AllPoolIsUniverse(n);
    var stack := s.stack.Free() + [b];
    forall x: Buffer
      ensures multiset(stack)[x] <= multiset(AllPool(n))[x]
    {
      assert multiset(stack)[x] <= multiset(Universe(n, s.heap))[x];
      assert x.Heap? ==> x !in s.stack.Free() + [b];
      assert x.Pool? ==> (x in Universe(n, s.heap) <==> x in Universe(n, {}));
    }
    SubsetSize(multiset(stack), multiset(AllPool(n)));
  }

  lemma SubsetSize(a: multiset<Buffer>, b: multiset<Buffer>)
    requires a <= b
    ensures |a| <= |b|
  {
    assert b == a + (b - a);
  }

  /** Every live thread can take its next action in every state the invariant allows. */
  lemma LiveIsEnabled(s: State, t: nat)
    requires Inv(s) && t < |s.slots| && s.slots[t].pc != Dead
    ensures Enabled(s, t)
  {
    assert SlotOk(s.slots[t]);
    if s.slots[t].pc.Freeing? && !s.slots[t].typed {
      RoomToFree(s, t);
    }
  }

  // --- one step

  lemma SlotsStep(s: State, t: nat, choice: Choice)
    requires SlotsOk(s) && Enabled(s, t)
    ensures SlotsOk(Next(s, t, choice))
  {
  }

  lemma TakeStep(s: State, t: nat)
    requires Inv(s) && Enabled(s, t) && s.slots[t].pc == Locking && s.stack.available > 0
    ensures Partition(Next(s, t, Get))
  {
    assert SlotOk(s.slots[t]);
    Balance(s, t, Next(s, t, Get));
  }

  lemma AllocateStep(s: State, t: nat)
    requires Inv(s) && Enabled(s, t) && s.slots[t].pc == NeedHeap
    ensures Partition(Next(s, t, Get))
  {
    assert SlotOk(s.slots[t]);
    AddToUniverse(|s.stack.pointers|, s.heap, s.next);
    Balance(s, t, Next(s, t, Get));
  }

  lemma DeleteStep(s: State, t: nat)
    requires Inv(s) && Enabled(s, t) && s.slots[t].pc.Freeing? && s.slots[t].typed
    ensures Partition(Next(s, t, Get))
  {
    var b := s.slots[t].pc.buffer;
    assert SlotOk(s.slots[t]);
    HeldContains(s.slots, t, b);
    HeldIsLive(s, b);
    AddToUniverse(|s.stack.pointers|, s.heap - {b.id}, b.id);
    assert s.heap - {b.id} + {b.id} == s.heap;
    Balance(s, t, Next(s, t, Get));
  }

  lemma HeldIsLive(s: State, b: Buffer)
    requires Inv(s) && Held(s.slots)[b] > 0 && b.Heap?
    ensures b.id in s.heap
  {
    assert (multiset(s.stack.Free()) + Held(s.slots))[b] > 0;
    assert b in Universe(|s.stack.pointers|, s.heap);
  }

  lemma AddToUniverse(n: nat, heap: set<nat>, id: nat)
    requires id !in heap
    ensures multiset(Universe(n, heap + {id})) == multiset(Universe(n, heap)) + multiset{Heap(id)}
  {
  }

  lemma GiveStep(s: State, t: nat)
    requires Inv(s) && Enabled(s, t) && s.slots[t].pc.Freeing? && !s.slots[t].typed
    ensures Partition(Next(s, t, Get))
  {
    assert SlotOk(s.slots[t]);
    Balance(s, t, Next(s, t, Get));
  }

  lemma OtherStep(s: State, t: nat, choice: Choice)
    requires Inv(s) && Enabled(s, t) && !s.slots[t].pc.Freeing?
    requires s.slots[t].pc == Locking ==> s.stack.available == 0
    requires s.slots[t].pc == NeedHeap ==> choice == Fail
    ensures Partition(Next(s, t, choice))
  {
    assert SlotOk(s.slots[t]);
    Balance(s, t, Next(s, t, choice));
  }

  lemma InvStep(s: State, t: nat, choice: Choice, s': State)
    requires Inv(s) && Enabled(s, t) && s' == Next(s, t, choice)
    ensures Inv(s')
  {
    var pc := s.slots[t].pc;
    SlotsStep(s, t, choice);
    if pc == Locking && s.stack.available > 0 {
      TakeStep(s, t);
    } else if pc == NeedHeap && choice != Fail {
      AllocateStep(s, t);
    } else if pc.Freeing? {
      if s.slots[t].typed {
        DeleteStep(s, t);
      } else {
        GiveStep(s, t);
      }
    } else {
      OtherStep(s, t, choice);
    }
  }

  lemma AtMostOnce(s: State, b: Buffer)
    requires Inv(s)
    ensures multiset(s.stack.Free())[b] + Held(s.slots)[b] <= 1
  {
    var all := multiset(s.stack.Free()) + Held(s.slots);
    assert all[b] == multiset(Universe(|s.stack.pointers|, s.heap))[b];
  }

  lemma HeldCount(slots: seq<Slot>, t: nat, b: Buffer)
    requires t < |slots|
    ensures Held(slots)[b] == slots[t].Held()[b] + Held(slots[..t])[b] + Held(slots[t + 1..])[b]
  {
    HeldSplit(slots, t);
  }

  lemma HeldBehind(slots: seq<Slot>, t: nat, u: nat, b: Buffer)
    requires t < u < |slots|
    ensures slots[u].Held()[b] <= Held(slots[t + 1..])[b]
  {
    var behind := slots[t + 1..];
    assert behind[u - t - 1] == slots[u];
    HeldContains(behind, u - t - 1, b);
  }

  lemma TwoHolders(slots: seq<Slot>, t: nat, u: nat, b: Buffer)
    requires t < u < |slots|
    ensures slots[t].Held()[b] + slots[u].Held()[b] <= Held(slots)[b]
  {
    HeldCount(slots, t, b);
    HeldBehind(slots, t, u, b);
  }

  // ----- theorems over every interleaving -----

  datatype Step = Step(t: nat, choice: Choice)

  predicate StepAt(states: seq<State>, steps: seq<Step>, k: int) {
    && 0 <= k < |steps| && k + 1 < |states| && Enabled(states[k], steps[k].t)
    && states[k + 1] == Next(states[k], steps[k].t, steps[k].choice)
  }

  ghost predicate IsRun(states: seq<State>, steps: seq<Step>) {
    && |states| == |steps| + 1 && Initial(states[0])
    && forall k :: 0 <= k < |steps| ==> StepAt(states, steps, k)
  }

  lemma {:induction false} RunInv(states: seq<State>, steps: seq<Step>, n: nat)
    requires IsRun(states, steps) && n <= |steps|
    ensures Inv(states[n]) && |states[n].stack.pointers| == |states[0].stack.pointers|
  {
    if n == 0 {
      InitialInv(states[0]);
    } else {
      RunInv(states, steps, n - 1);
      assert StepAt(states, steps, n - 1);
      InvStep(states[n - 1], steps[n - 1].t, steps[n - 1].choice, states[n]);
    }
  }

  /** The free part of the stack together with everything the threads hold is exactly the static
      buffers and the live heap buffers, each once; and no heap buffer is on the stack. */
  lemma PoolPartition(states: seq<State>, steps: seq<Step>, n: nat)
    requires IsRun(states, steps) && n <= |steps|
    ensures var s := states[n];
      && s.stack.Valid()
      && multiset(s.stack.Free()) + Held(s.slots) == multiset(Universe(|states[0].stack.pointers|, s.heap))
      && forall b :: b in s.stack.Free() ==> b.Pool?
  {
    RunInv(states, steps, n);
  }

  /** No two threads hold the same buffer, and no held buffer is on the free stack. */
  lemma NoSharing(states: seq<State>, steps: seq<Step>, n: nat, t: nat, u: nat, b: Buffer)
    requires IsRun(states, steps) && n <= |steps| && t < u < |states[n].slots|
    requires b in states[n].slots[t].Held()
    ensures b !in states[n].slots[u].Held()
    ensures states[n].stack.Valid() && b !in states[n].stack.Free()
  {
    RunInv(states, steps, n);
    AtMostOnce(states[n], b);
    TwoHolders(states[n].slots, t, u, b);
  }

  /** No buffer that a thread holds is on the free stack, however many threads there are. */
  lemma HeldIsNotFree(states: seq<State>, steps: seq<Step>, n: nat, t: nat, b: Buffer)
    requires IsRun(states, steps) && n <= |steps| && t < |states[n].slots|
    requires b in states[n].slots[t].Held()
    ensures states[n].stack.Valid() && b !in states[n].stack.Free()
  {
    RunInv(states, steps, n);
    AtMostOnce(states[n], b);
    HeldContains(states[n].slots, t, b);
  }

  // ----- when the heap is used -----

  lemma SizeOfSum(a: multiset<Buffer>, b: multiset<Buffer>)
    ensures |a + b| == |a| + |b|
  {
  }

  lemma {:induction false} HeldSize(slots: seq<Slot>)
    ensures |Held(slots)| <= |slots|
  {
    if slots != [] {
      HeldSize(slots[1..]);
      SizeOfSum(slots[0].Held(), Held(slots[1..]));
    }
  }

  lemma SomebodyHoldsNothing(slots: seq<Slot>, t: nat)
    requires t < |slots| && slots[t].Held() == multiset{}
    ensures |Held(slots)| < |slots|
  {
    HeldSplit(slots, t);
    HeldSize(slots[..t]);
    HeldSize(slots[t + 1..]);
    SizeOfSum(Held(slots[..t]), Held(slots[t + 1..]));
    assert Held(slots) == Held(slots[..t]) + Held(slots[t + 1..]);
  }

  /** A thread goes to the heap only when no static buffer is free. */
  lemma HeapOnlyWhenEmpty(s: State, t: nat, choice: Choice)
    requires Enabled(s, t) && s.slots[t].pc != NeedHeap && Next(s, t, choice).slots[t].pc == NeedHeap
    ensures s.stack.Free() == [] && s.slots[t].pc == Locking
  {
  }

  lemma StaticSize(s: State)
    requires Inv(s) && s.heap == {}
    ensures s.stack.available + |Held(s.slots)| == |s.stack.pointers|
  {
    AllPoolIsUniverse(|s.stack.pointers|);
    SizeOfSum(multiset(s.stack.Free()), Held(s.slots));
    assert |multiset(AllPool(|s.stack.pointers|))| == |s.stack.pointers|;
  }

  /** While the heap is unused, a thread that asks finds a static buffer, if there are enough. */
  lemma FindsStatic(s: State, t: nat)
    requires Inv(s) && s.heap == {} && |s.slots| <= |s.stack.pointers|
    requires t < |s.slots| && s.slots[t].pc == Locking
    ensures s.stack.available > 0
  {
    assert SlotOk(s.slots[t]);
    SomebodyHoldsNothing(s.slots, t);
    StaticSize(s);
  }

  ghost predicate HeapUnused(s: State) {
    s.heap == {} && forall t :: 0 <= t < |s.slots| ==> s.slots[t].pc != NeedHeap
  }

  lemma UnusedStep(s: State, t: nat, choice: Choice)
    requires Inv(s) && HeapUnused(s) && |s.slots| <= |s.stack.pointers| && Enabled(s, t)
    ensures HeapUnused(Next(s, t, choice))
  {
    if s.slots[t].pc == Locking {
      FindsStatic(s, t);
    }
  }

  /** With no more threads than static buffers, no buffer is ever allocated on the heap. */
  lemma {:induction false} StaticSuffice(states: seq<State>, steps: seq<Step>, n: nat)
    requires IsRun(states, steps) && n <= |steps|
    requires |states[0].slots| <= |states[0].stack.pointers|
    ensures HeapUnused(states[n]) && |states[n].slots| == |states[0].slots|
  {
    if n > 0 {
      StaticSuffice(states, steps, n - 1);
      RunInv(states, steps, n - 1);
      assert StepAt(states, steps, n - 1);
      UnusedStep(states[n - 1], steps[n - 1].t, steps[n - 1].choice);
    }
  }

  // ----- one thread's buffer -----

  /** An idle thread that has a buffer asks for one again, and is given the same at once; it keeps it
      until it exits. */
  lemma {:induction false} KeepsItsBuffer(states: seq<State>, steps: seq<Step>, i: nat, n: nat, t: nat)
    requires IsRun(states, steps) && i <= n <= |steps|
    requires t < |states[i].slots| && states[i].slots[t].pc == Idle && states[i].slots[t].key.Some?
    requires forall k :: i <= k < n ==> steps[k] != Step(t, Exit)
    ensures t < |states[n].slots| && states[n].slots[t] == states[i].slots[t]
  {
    if i < n {
      KeepsItsBuffer(states, steps, i, n - 1, t);
      assert StepAt(states, steps, n - 1);
    }
  }

  /** How many of its own actions a thread is from the end of its call, or of its exit. */
  function Rank(pc: Pc): nat {
    match pc
    case Locking => 4
    case NeedHeap => 3
    case Typing(_) => 2
    case Publishing(_) => 1
    case Freeing(_) => 1
    case Idle => 0
    case Dead => 0
  }

  function OwnSteps(steps: seq<Step>, i: nat, n: nat, t: nat): nat
    requires i <= n <= |steps|
  {
    if i == n then 0 else OwnSteps(steps, i, n - 1, t) + if steps[n - 1].t == t then 1 else 0
  }

  /** Every call ends after at most four actions of its thread, and every exit after at most two. */
  lemma {:induction false} CallsEnd(states: seq<State>, steps: seq<Step>, i: nat, n: nat, t: nat)
    requires IsRun(states, steps) && i <= n <= |steps| && t < |states[i].slots|
    requires forall k :: i <= k < n ==> |states[k].slots| == |states[i].slots| && states[k].slots[t].pc != Idle
    ensures |states[n].slots| == |states[i].slots|
    ensures OwnSteps(steps, i, n, t) + Rank(states[n].slots[t].pc) <= Rank(states[i].slots[t].pc)
    decreases n
  {
    if i < n {
      CallsEnd(states, steps, i, n - 1, t);
      assert StepAt(states, steps, n - 1);
    }
  }

  /** A call returns a buffer unless an allocation failed; a thread that exits gives its buffer back, if
      it has one, and is gone. */
  lemma StepEnds(s: State, t: nat, choice: Choice)
    requires Inv(s) && Enabled(s, t)
    ensures var pc, slot := s.slots[t].pc, Next(s, t, choice).slots[t];
      && (slot.pc == Idle && pc != Idle ==> slot.key.Some? || (pc == NeedHeap && choice == Fail))
      && (pc == Idle && choice == Exit ==>
            slot.pc == if s.slots[t].key.Some? then Freeing(s.slots[t].key.value) else Dead)
      && (pc == Idle && choice != Exit ==> slot.pc == if s.slots[t].key.Some? then Idle else Locking)
      && (pc.Freeing? ==> slot.pc == Dead)
  {
    assert SlotOk(s.slots[t]);
  }

  /** When all threads have exited every static buffer is free again and no heap buffer is left. */
  lemma NothingLeaks(states: seq<State>, steps: seq<Step>, n: nat)
    requires IsRun(states, steps) && n <= |steps|
    requires forall t :: 0 <= t < |states[n].slots| ==> states[n].slots[t].pc == Dead
    ensures states[n].heap == {} && states[n].stack.available == |states[n].stack.pointers|
    ensures multiset(states[n].stack.pointers) == multiset(AllPool(|states[0].stack.pointers|))
  {
    var s := states[n];
    RunInv(states, steps, n);
    forall t | 0 <= t < |s.slots|
      ensures s.slots[t].Held() == multiset{}
    {
      assert SlotOk(s.slots[t]);
    }
    NothingHeld(s.slots);
    AllFree(s);
  }

  lemma AllFree(s: State)
    requires Inv(s) && Held(s.slots) == multiset{}
    ensures s.heap == {} && s.stack.available == |s.stack.pointers|
    ensures multiset(s.stack.pointers) == multiset(AllPool(|s.stack.pointers|))
  {
    var n := |s.stack.pointers|;
    assert multiset(s.stack.Free()) == multiset(Universe(n, s.heap));
    if h :| h in s.heap {
      assert Heap(h) in Universe(n, s.heap);
      assert Heap(h) in multiset(s.stack.Free());
    }
    AllPoolIsUniverse(n);
    assert |multiset(s.stack.Free())| == |multiset(AllPool(n))|;
    assert s.stack.Free() == s.stack.pointers;
  }
}
