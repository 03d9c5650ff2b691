/** DescriptorHandlerCleaner: holders pushed by the poller are dropped only after every thread
    has called release.  A bit per thread, a count of threads that have not released in this
    round, and two generations of lists.

    A step is one atomic action of one thread; the final decrement, the sweep of the bits and
    the list swap are taken as one step. */
module Cleaner {
  import opened Sums

  type Holder = nat

  /** release_array_, unreleased_count_ and the two lists. */
  datatype Shared = Shared(bits: seq<int>, unreleased: int, free: seq<Holder>, candidates: seq<Holder>)

  function CountOnes(bits: seq<int>): nat {
    if bits == [] then 0 else (if bits[0] == 1 then 1 else 0) + CountOnes(bits[1..])
  }

  function Decremented(bits: seq<int>): (r: seq<int>)
    ensures |r| == |bits| && forall i :: 0 <= i < |bits| ==> r[i] == bits[i] - 1
  {
    seq(|bits|, i requires 0 <= i < |bits| => bits[i] - 1)
  }

  /** unreleased_count_-- and, when that was the last one, the sweep and the swap. */
  function Finish(sh: Shared): Shared {
    if sh.unreleased == 1
    then Shared(Decremented(sh.bits), CountOnes(sh.bits), sh.candidates, [])
    else sh.(unreleased := sh.unreleased - 1)
  }

  /** What Finish lets go of. */
  function Dropped(sh: Shared): seq<Holder> { if sh.unreleased == 1 then sh.free else [] }

  /** The cleaner's fields, and release() as one thread runs it undisturbed. */
  class DescriptorHandlerCleaner {
    const releaseArray: array<int>
    var unreleasedCount: int
    var free: seq<Holder>
    var freeCandidates: seq<Holder>

    function Value(): Shared
      reads this, releaseArray
    {
      Shared(releaseArray[..], unreleasedCount, free, freeCandidates)
    }

    constructor (threads: nat)
      ensures fresh(releaseArray)
      ensures Value() == Shared(seq(threads, _ => 0), threads, [], [])
    {
      releaseArray := new int[threads](_ => 0);
      unreleasedCount := threads;
      free, freeCandidates := [], [];
      new;
      assert releaseArray[..] == seq(threads, _ => 0);
    }

    method Push(holder: Holder)
      modifies this
      ensures Value() == old(Value()).(candidates := old(freeCandidates) + [holder])
    {
      freeCandidates := freeCandidates + [holder];
    }

    /** The decrement of the count, the sweep of the array and the swap of the lists. */
    method FinishRound() returns (clearList: seq<Holder>)
      modifies this, releaseArray
      ensures Value() == Finish(old(Value()))
      ensures clearList == Dropped(old(Value()))
    {
      clearList := [];
      unreleasedCount := unreleasedCount - 1;
      if unreleasedCount == 0 {
        ghost var bits := old(releaseArray[..]);
        var i := 0;
        while i < releaseArray.Length
          invariant 0 <= i <= releaseArray.Length
          invariant forall k :: 0 <= k < i ==> releaseArray[k] == bits[k] - 1
          invariant forall k :: i <= k < releaseArray.Length ==> releaseArray[k] == bits[k]
          invariant unreleasedCount + CountOnes(bits[i..]) == CountOnes(bits)
          invariant free == old(free) && freeCandidates == old(freeCandidates)
        {
          if releaseArray[i] == 1 {
            unreleasedCount := unreleasedCount + 1;
          }
          releaseArray[i] := releaseArray[i] - 1;
          i := i + 1;
        }
        clearList := free;
        free := freeCandidates;
        freeCandidates := [];
        assert releaseArray[..] == Decremented(bits);
      }
    }

    /** release(id): nothing when the bit is set already, else one mark and the end of the round
        when it was the last. */
    method Release(id: nat) returns (clearList: seq<Holder>)
      requires id < releaseArray.Length
      modifies this, releaseArray
      ensures old(releaseArray[id]) != 0 ==> Value() == old(Value()) && clearList == []
      ensures old(releaseArray[id]) == 0 ==>
        var marked := old(Value()).(bits := old(releaseArray[..])[id := 1]);
        Value() == Finish(marked) && clearList == Dropped(marked)
    {
      clearList := [];
      if releaseArray[id] == 0 {
        releaseArray[id] := releaseArray[id] + 1;
        assert releaseArray[..] == old(releaseArray[..])[id := 1];
        clearList := FinishRound();
      }
    }
  }

  /** Where a thread is in release(). */
  datatype Pc =
    | Outside
    | Tested      // read its bit as 0
    | Marked      // its increment found 0: decrement the count next
    | Bounced     // its increment did not find 0: take it back next
    | Reverting   // took it back from 1: increment the count next

  /** The fields after `pcs` are history. */
  datatype State = State(
    sh: Shared, pcs: seq<Pc>,
    pushed: seq<Holder>,      // every holder ever pushed, in order
    dropped: seq<Holder>,     // every holder let go, in order
    begun: seq<nat>,          // release calls begun, by thread
    done: seq<nat>,           // release calls completed, by thread
    stamps: seq<seq<nat>>,    // begun at each push
    epoch: seq<nat>,          // begun at the latest sweep
    sweeps: nat)

  datatype Step = Push(holder: Holder) | Run(t: nat)

  predicate Initial(s: State) {
    var n := |s.pcs|;
    && s.sh == Shared(seq(n, _ => 0), n, [], [])
    && (forall t :: 0 <= t < n ==> s.pcs[t] == Outside)
    && s.begun == s.done == s.epoch == seq(n, _ => 0)
    && s.pushed == s.dropped == [] && s.stamps == [] && s.sweeps == 0
  }

  predicate Sized(s: State) {
    |s.sh.bits| == |s.pcs| == |s.begun| == |s.done| == |s.epoch|
  }

  predicate Enabled(s: State, step: Step) {
    Sized(s) && (step.Run? ==> step.t < |s.pcs|)
  }

  function Next(s: State, step: Step): State
    requires Enabled(s, step)
  {
    match step
    case Push(h) =>
      s.(sh := s.sh.(candidates := s.sh.candidates + [h]), pushed := s.pushed + [h],
         stamps := s.stamps + [s.begun])
    case Run(t) => RunThread(s, t)
  }

  predicate Stepped(s: State, step: Step, s': State) {
    Enabled(s, step) && s' == Next(s, step)
  }

  function To(s: State, t: nat, pc: Pc): State
    requires Enabled(s, Run(t))
  {
    s.(pcs := s.pcs[t := pc], done := if pc == Outside then s.done[t := s.done[t] + 1] else s.done)
  }

  function RunThread(s: State, t: nat): State
    requires Enabled(s, Run(t))
  {
    var bit := s.sh.bits[t];
    match s.pcs[t]
    case Outside =>
      To(s.(begun := s.begun[t := s.begun[t] + 1]), t, if bit == 0 then Tested else Outside)
    case Tested =>
      To(s.(sh := s.sh.(bits := s.sh.bits[t := bit + 1])), t, if bit == 0 then Marked else Bounced)
    case Marked =>
      To(s.(sh := Finish(s.sh), dropped := s.dropped + Dropped(s.sh),
            epoch := if s.sh.unreleased == 1 then s.begun else s.epoch,
            sweeps := if s.sh.unreleased == 1 then s.sweeps + 1 else s.sweeps), t, Outside)
    case Bounced =>
      To(s.(sh := s.sh.(bits := s.sh.bits[t := bit - 1])), t, if bit == 1 then Reverting else Outside)
    case Reverting =>
      To(s.(sh := s.sh.(unreleased := s.sh.unreleased + 1)), t, Outside)
  }

  // ----- invariant -----

  /** A thread counts as unreleased while its bit is 0, and between its increment of the bit and
      its decrement of the count. */
  function Weight(bit: int, pc: Pc): int {
    (if bit == 0 then 1 else 0) + (if pc == Marked then 1 else 0)
  }

  function Weights(bits: seq<int>, pcs: seq<Pc>): (ws: seq<int>)
    requires |bits| == |pcs|
    ensures |ws| == |pcs| && forall i :: 0 <= i < |pcs| ==> ws[i] == Weight(bits[i], pcs[i])
  {
    seq(|pcs|, i requires 0 <= i < |pcs| => Weight(bits[i], pcs[i]))
  }

  predicate ThreadOk(bit: int, pc: Pc, begun: nat, done: nat, epoch: nat) {
    && (bit == 0 || bit == 1)
    && (pc == Outside || (pc == Tested && bit == 0) || (pc == Marked && bit == 1))
    && begun == done + (if pc == Outside then 0 else 1)
    && epoch <= begun
    && (bit == 1 || pc == Tested ==> epoch < begun)
  }

  ghost predicate ThreadsOk(s: State)
    requires Sized(s)
  {
    forall t :: 0 <= t < |s.pcs| ==>
      ThreadOk(s.sh.bits[t], s.pcs[t], s.begun[t], s.done[t], s.epoch[t])
  }

  /** unreleased_count_ is the number of zero bits plus the threads between the two updates. */
  ghost predicate CountOk(s: State)
    requires Sized(s)
  {
    && s.sh.unreleased == Total(Weights(s.sh.bits, s.pcs))
    && (|s.pcs| > 0 ==> s.sh.unreleased >= 1)
  }

  /** Each pushed holder is in exactly one place, in push order. */
  ghost predicate Conserved(s: State) {
    && s.pushed == s.dropped + s.sh.free + s.sh.candidates
    && |s.stamps| == |s.pushed|
  }

  /** Since the push of a dropped holder every thread has begun and completed a release; what
      waits in free_ was pushed before the latest sweep. */
  ghost predicate Grace(s: State)
    requires Sized(s) && Conserved(s)
  {
    && (forall k :: 0 <= k < |s.stamps| ==> |s.stamps[k]| == |s.pcs|)
    && (forall k, t :: 0 <= k < |s.stamps| && 0 <= t < |s.pcs| ==> s.stamps[k][t] <= s.begun[t])
    && (forall k, t :: 0 <= k < |s.dropped| + |s.sh.free| && 0 <= t < |s.pcs| ==>
          s.stamps[k][t] <= s.epoch[t])
    && (forall k, t :: 0 <= k < |s.dropped| && 0 <= t < |s.pcs| ==> s.stamps[k][t] < s.done[t])
  }

  ghost predicate Inv(s: State) {
    Sized(s) && ThreadsOk(s) && CountOk(s) && Conserved(s) && Grace(s)
  }

  lemma InitialInv(s: State)
    requires Initial(s)
    ensures Inv(s)
  {
    TotalConstant(Weights(s.sh.bits, s.pcs), 1);
  }

  /** Whoever decrements the count from 1 finds every bit set and nobody else in release(). */
  lemma LastReleaser(s: State, t: nat)
    requires Inv(s) && t < |s.pcs| && s.pcs[t] == Marked && s.sh.unreleased == 1
    ensures forall i :: 0 <= i < |s.pcs| ==> s.sh.bits[i] == 1 && (i != t ==> s.pcs[i] == Outside)
  {
    var ws := Weights(s.sh.bits, s.pcs);
    TotalUpdate(ws, t, 0);
    assert ThreadOk(s.sh.bits[t], s.pcs[t], s.begun[t], s.done[t], s.epoch[t]);
    forall i | 0 <= i < |s.pcs|
      ensures s.sh.bits[i] == 1 && (i != t ==> s.pcs[i] == Outside)
    {
      TotalBounds(ws[t := 0], i);
      assert ThreadOk(s.sh.bits[i], s.pcs[i], s.begun[i], s.done[i], s.epoch[i]);
    }
  }

  lemma {:induction false} AllOnes(bits: seq<int>)
    requires forall i :: 0 <= i < |bits| ==> bits[i] == 1
    ensures CountOnes(bits) == |bits|
  {
    if bits != [] {
      AllOnes(bits[1..]);
    }
  }

  lemma SweepInv(s: State, t: nat)
    requires Inv(s) && t < |s.pcs| && s.pcs[t] == Marked && s.sh.unreleased == 1
    ensures Inv(RunThread(s, t))
  {
    LastReleaser(s, t);
    AllOnes(s.sh.bits);
    var s' := RunThread(s, t);
    TotalConstant(Weights(s'.sh.bits, s'.pcs), 1);
    forall i | 0 <= i < |s.pcs|
      ensures ThreadOk(s'.sh.bits[i], s'.pcs[i], s'.begun[i], s'.done[i], s'.epoch[i])
      ensures s.epoch[i] < s'.done[i]
    {
      assert ThreadOk(s.sh.bits[i], s.pcs[i], s.begun[i], s.done[i], s.epoch[i]);
    }
  }

  /** A thread's own bit and place change its weight, hence the count, by what it decrements. */
  lemma WeightsChange(bits: seq<int>, pcs: seq<Pc>, t: nat, bit: int, pc: Pc)
    requires |bits| == |pcs| && t < |pcs|
    ensures Total(Weights(bits[t := bit], pcs[t := pc])) ==
            Total(Weights(bits, pcs)) - Weight(bits[t], pcs[t]) + Weight(bit, pc)
  {
    TotalUpdate(Weights(bits, pcs), t, Weight(bit, pc));
    assert Weights(bits[t := bit], pcs[t := pc]) == Weights(bits, pcs)[t := Weight(bit, pc)];
  }

  lemma RunThreadInv(s: State, t: nat)
    requires Inv(s) && t < |s.pcs| && !(s.pcs[t] == Marked && s.sh.unreleased == 1)
    ensures Inv(RunThread(s, t))
  {
    var s' := RunThread(s, t);
    assert ThreadOk(s.sh.bits[t], s.pcs[t], s.begun[t], s.done[t], s.epoch[t]);
    WeightsChange(s.sh.bits, s.pcs, t, s'.sh.bits[t], s'.pcs[t]);
    assert s'.sh.bits == s.sh.bits[t := s'.sh.bits[t]] && s'.pcs == s.pcs[t := s'.pcs[t]];
    forall i | 0 <= i < |s.pcs|
      ensures ThreadOk(s'.sh.bits[i], s'.pcs[i], s'.begun[i], s'.done[i], s'.epoch[i])
    {
      assert ThreadOk(s.sh.bits[i], s.pcs[i], s.begun[i], s.done[i], s.epoch[i]);
    }
  }

  lemma InvStep(s: State, step: Step, s': State)
    requires Inv(s) && Stepped(s, step, s')
    ensures Inv(s')
  {
    match step
    case Push(h) =>
      forall t | 0 <= t < |s.pcs|
        ensures ThreadOk(s'.sh.bits[t], s'.pcs[t], s'.begun[t], s'.done[t], s'.epoch[t])
      {
        assert ThreadOk(s.sh.bits[t], s.pcs[t], s.begun[t], s.done[t], s.epoch[t]);
      }
    case Run(t) =>
      if s.pcs[t] == Marked && s.sh.unreleased == 1 {
        SweepInv(s, t);
      } else {
        RunThreadInv(s, t);
      }
  }
}
