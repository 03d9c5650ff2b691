/** A hash connection inside the descriptor protocol: interleaved runs in which the results that the
    threads apply are those of the connection's handler.  Such a run lives a life of the connection,
    one turn for each pass of an owner. */
module ConnectionProtocol {
  import opened Framing
  import opened ScatterQueue
  import opened Connection
  import opened ConnectionClosing
  import P = HandlerProtocol

  /** The protocol's state and the connection that the handler serves. */
  datatype Served = Served(p: P.State, session: Session)

  /** The step calls read(), or write(). */
  predicate CallsRead(s: P.State, step: P.Step) {
    step.Run? && step.t < |s.pcs| && s.pcs[step.t].PassRead? && s.sh.flags.handleRead
  }

  predicate CallsWrite(s: P.State, step: P.Step) {
    step.Run? && step.t < |s.pcs| && s.pcs[step.t].PassWrite? && s.sh.flags.handleWrite
  }

  /** A step of the protocol; if it calls the handler, `input` is what the kernel does then, and the
      result is the handler's. */
  predicate ServedStep(s: Served, step: P.Step, input: Turn, s': Served) {
    && P.Stepped(s.p, step, s'.p) && s.session.queue.Valid()
    && if CallsRead(s.p, step) then
         && s'.session == AfterRead(s.session, Concat(input.chunks))
         && step.change == ReadChange(s'.session.queue.bufs != [], input.readEnd)
       else if CallsWrite(s.p, step) then
         && Sendable(s.session.queue, input.sends)
         && s'.session == AfterWrite(s.session, input.sends)
         && step.change == WriteChange(s'.session.queue.bufs != [], input.writeEnd)
       else s'.session == s.session
  }

  predicate ServedAt(states: seq<Served>, steps: seq<P.Step>, inputs: seq<Turn>, k: int) {
    && 0 <= k < |steps| && k < |inputs| && k + 1 < |states|
    && ServedStep(states[k], steps[k], inputs[k], states[k + 1])
  }

  ghost predicate IsServedRun(states: seq<Served>, steps: seq<P.Step>, inputs: seq<Turn>) {
    && |states| == |steps| + 1 && |inputs| == |steps|
    && P.Initial(states[0].p) && states[0].session == OPENED
    && forall k :: 0 <= k < |steps| ==> ServedAt(states, steps, inputs, k)
  }

  // ----- the life that a run lives -----

  /** The finished turns, the links they lead through, and the turn under way. */
  datatype Trace = Trace(links: seq<Link>, turns: seq<Turn>, current: Turn)

  predicate Between(pc: P.Pc) { pc.AfterRead? || pc.PassWrite? || pc.AfterWrite? }

  /** With the owner at pc: the flags and the session against the link before the turn under way. */
  predicate Matches(pc: P.Pc, flags: P.Flags, session: Session, l: Link, turn: Turn) {
    && l.Valid()
    && (Between(pc) ==> !l.flags.Closed())
    && match pc
       case AfterRead(_, write) =>
         Link(flags.(handleWrite := write), session) == ReadPart(l, turn)
       case PassWrite(_) =>
         Link(flags, session) == ReadPart(l, turn)
       case AfterWrite(_, write) =>
         MayTurn(l, turn) && Link(flags.(handleWrite := write), session) == AfterTurn(l, turn)
       case _ =>
         Link(flags, session) == l
  }

  function OwnerPc(s: P.State): P.Pc { P.PcAt(s, s.sh.owner) }

  predicate Lives(s: Served, trace: Trace) {
    && IsLife(trace.links, trace.turns)
    && Matches(OwnerPc(s.p), s.p.sh.flags, s.session, trace.links[|trace.turns|], trace.current)
  }

  /** One action of the owner, up to the end of its turn. */
  predicate TurnMoves(pc: P.Pc, sh: P.Shared, session: Session, change: bv64, input: Turn, session': Session) {
    && session.queue.Valid()
    && if pc.PassRead? && sh.flags.handleRead then
         && session' == AfterRead(session, Concat(input.chunks))
         && change == ReadChange(session'.queue.bufs != [], input.readEnd)
       else if pc.PassWrite? && sh.flags.handleWrite then
         && Sendable(session.queue, input.sends)
         && session' == AfterWrite(session, input.sends)
         && change == WriteChange(session'.queue.bufs != [], input.writeEnd)
       else session' == session
  }

  /** The turn under way after the action: what the kernel did in it so far. */
  function Extended(pc: P.Pc, current: Turn, input: Turn): Turn {
    if pc.PassRead? then input
    else if pc.PassWrite? then current.(sends := input.sends, writeEnd := input.writeEnd)
    else current
  }

  /** Reading starts or goes on. */
  lemma ReadMoves(pc: P.Pc, sh: P.Shared, session: Session, change: bv64, input: Turn, session': Session,
                  l: Link, current: Turn)
    requires pc.PassRead? || pc.AfterRead?
    requires Matches(pc, sh.flags, session, l, current) && (pc.PassRead? ==> !sh.flags.Closed())
    requires TurnMoves(pc, sh, session, change, input, session')
    ensures var (pc', sh') := P.Pass(pc, sh, change);
      Between(pc') && Matches(pc', sh'.flags, session', l, Extended(pc, current, input))
  {
  }

  /** Writing starts, or the turn is over. */
  lemma WriteMoves(pc: P.Pc, sh: P.Shared, session: Session, change: bv64, input: Turn, session': Session,
                   l: Link, current: Turn)
    requires pc.PassWrite? || pc.AfterWrite?
    requires Matches(pc, sh.flags, session, l, current)
    requires TurnMoves(pc, sh, session, change, input, session')
    ensures var (pc', sh') := P.Pass(pc, sh, change);
      var turn := Extended(pc, current, input);
      && (Between(pc') ==> Matches(pc', sh'.flags, session', l, turn))
      && (!Between(pc') ==> pc'.PassCheck? && MayTurn(l, turn) && Link(sh'.flags, session') == AfterTurn(l, turn))
  {
  }

  lemma TurnAppended(links: seq<Link>, turns: seq<Turn>, turn: Turn)
    requires IsLife(links, turns)
    requires var l := links[|turns|]; l.Valid() && !l.flags.Closed() && MayTurn(l, turn)
    ensures IsLife(links + [AfterTurn(links[|turns|], turn)], turns + [turn])
  {
    var links', turns' := links + [AfterTurn(links[|turns|], turn)], turns + [turn];
    forall k | 0 <= k < |turns'|
      ensures TurnAt(links', turns', k)
    {
      assert k < |turns| ==> TurnAt(links, turns, k);
    }
  }

  /** Outside a turn no action touches the flags. */
  lemma OtherActions(pc: P.Pc, sh: P.Shared, t: nat, change: bv64)
    requires P.CanRun(pc, sh) && !Between(pc) && !pc.PassRead?
    ensures var (pc', sh') := P.Action(pc, sh, t, change);
      sh'.flags == sh.flags && !Between(pc')
  {
  }

  // ----- one step -----

  /** Neither a delivery nor a direct rearm touches the owner. */
  lemma OthersKeepOwner(s: P.State, step: P.Step, s': P.State)
    requires P.Inv(s) && P.Stepped(s, step, s') && !step.Run?
    ensures OwnerPc(s') == OwnerPc(s) && s'.sh.flags == s.sh.flags
  {
    if step.Deliver? {
      assert P.ThreadOk(s.pcs[step.t], s.sh.owner == step.t, s.sh.lock == step.t);
    }
  }

  /** An action outside the turns leaves flags and session, and nobody in a turn. */
  lemma OutsideTurn(s: P.State, step: P.Step, s': P.State)
    requires P.Inv(s) && P.Stepped(s, step, s') && step.Run?
    requires !Between(s.pcs[step.t]) && !s.pcs[step.t].PassRead?
    ensures s'.sh.flags == s.sh.flags
    ensures if step.t == s.sh.owner then !Between(OwnerPc(s')) else OwnerPc(s') == OwnerPc(s) || !Between(OwnerPc(s'))
    ensures step.t != s.sh.owner && Between(OwnerPc(s)) ==> OwnerPc(s') == OwnerPc(s)
  {
    var t, pc := step.t, s.pcs[step.t];
    assert P.ThreadOk(pc, s.sh.owner == t, s.sh.lock == t);
    OtherActions(pc, s.sh, t, step.change);
    P.ActionKeeps(pc, s.sh, t, step.change, OwnerPc(s));
  }

  /** The owner is the thread at work inside a pass, and it has not found both sides closed. */
  lemma OwnerInTurn(s: P.State, t: nat)
    requires P.Inv(s) && t < |s.pcs| && P.InPass(s.pcs[t])
    ensures s.sh.owner == t && OwnerPc(s) == s.pcs[t]
    ensures s.pcs[t].PassRead? ==> !s.sh.flags.Closed()
  {
    assert P.ThreadOk(s.pcs[t], s.sh.owner == t, s.sh.lock == t);
  }

  /** Every step carries the life on. */
  lemma LivesStep(s: Served, step: P.Step, input: Turn, s': Served, trace: Trace) returns (trace': Trace)
    requires P.Inv(s.p) && ServedStep(s, step, input, s') && Lives(s, trace)
    ensures Lives(s', trace')
  {
    trace' := trace;
    if !step.Run? {
      OthersKeepOwner(s.p, step, s'.p);
    } else if !Between(s.p.pcs[step.t]) && !s.p.pcs[step.t].PassRead? {
      OutsideTurn(s.p, step, s'.p);
    } else {
      trace' := TurnStep(s, step, input, s', trace);
    }
  }

  lemma TurnStep(s: Served, step: P.Step, input: Turn, s': Served, trace: Trace) returns (trace': Trace)
    requires P.Inv(s.p) && ServedStep(s, step, input, s') && Lives(s, trace) && step.Run?
    requires Between(s.p.pcs[step.t]) || s.p.pcs[step.t].PassRead?
    ensures Lives(s', trace')
  {
    var t, pc, sh, l := step.t, s.p.pcs[step.t], s.p.sh, trace.links[|trace.turns|];
    var turn := Extended(pc, trace.current, input);
    OwnerInTurn(s.p, t);
    if pc.PassRead? || pc.AfterRead? {
      ReadMoves(pc, sh, s.session, step.change, input, s'.session, l, trace.current);
      trace' := trace.(current := turn);
    } else {
      WriteMoves(pc, sh, s.session, step.change, input, s'.session, l, trace.current);
      if Between(OwnerPc(s'.p)) {
        trace' := trace.(current := turn);
      } else {
        TurnAppended(trace.links, trace.turns, turn);
        trace' := Trace(trace.links + [AfterTurn(l, turn)], trace.turns + [turn], turn);
      }
    }
  }

  // ----- whole runs -----

  lemma {:induction false} ProtocolRun(states: seq<Served>, steps: seq<P.Step>, inputs: seq<Turn>, n: nat)
    requires IsServedRun(states, steps, inputs) && n <= |steps|
    ensures P.Inv(states[n].p)
  {
    if n == 0 {
      P.InitialOwner(states[0].p);
      P.InitialArmed(states[0].p);
    } else {
      ProtocolRun(states, steps, inputs, n - 1);
      assert ServedAt(states, steps, inputs, n - 1);
      P.InvStep(states[n - 1].p, steps[n - 1], states[n].p);
    }
  }

  lemma FirstTrace(s: Served) returns (trace: Trace)
    requires P.Initial(s.p) && s.session == OPENED
    ensures Lives(s, trace)
  {
    trace := Trace([OPENED_LINK], [], ONE_LINE);
    assert OwnerPc(s.p) == P.Waiting;
    assert Link(s.p.sh.flags, s.session) == OPENED_LINK;
  }

  lemma LivesAt(states: seq<Served>, steps: seq<P.Step>, inputs: seq<Turn>, k: nat, trace: Trace)
      returns (trace': Trace)
    requires ServedAt(states, steps, inputs, k) && P.Inv(states[k].p) && Lives(states[k], trace)
    ensures Lives(states[k + 1], trace')
  {
    trace' := LivesStep(states[k], steps[k], inputs[k], states[k + 1], trace);
  }

  /** Every interleaved run lives a life of the connection. */
  lemma {:induction false} RunLives(states: seq<Served>, steps: seq<P.Step>, inputs: seq<Turn>, n: nat)
      returns (trace: Trace)
    requires IsServedRun(states, steps, inputs) && n <= |steps|
    ensures Lives(states[n], trace)
  {
    if n == 0 {
      trace := FirstTrace(states[0]);
    } else {
      var k := n - 1;
      var before := RunLives(states, steps, inputs, k);
      ProtocolRun(states, steps, inputs, k);
      trace := LivesAt(states, steps, inputs, k, before);
    }
  }

  lemma EndOfLife(links: seq<Link>, turns: seq<Turn>)
    requires IsLife(links, turns)
    ensures turns != [] ==> TurnAt(links, turns, |turns| - 1)
    ensures links[|turns|].flags.Closed() <==> turns != [] && Ends(links[|turns| - 1], turns[|turns| - 1])
  {
    if turns != [] {
      ClosedExactlyWhen(links, turns, |turns|);
    }
  }

  /** Whenever no turn is under way, in particular whenever an owner tests the closed flags, flags and
      session are those at the end of a life, and both sides are closed exactly when its last turn met an
      error, or the end of the stream with no answer waiting. */
  lemma ClosedExactlyWhenInRuns(states: seq<Served>, steps: seq<P.Step>, inputs: seq<Turn>, n: nat)
      returns (links: seq<Link>, turns: seq<Turn>)
    requires IsServedRun(states, steps, inputs) && n <= |steps| && !Between(OwnerPc(states[n].p))
    ensures IsLife(links, turns) && links[|turns|] == Link(states[n].p.sh.flags, states[n].session)
    ensures turns != [] ==> TurnAt(links, turns, |turns| - 1)
    ensures states[n].p.sh.flags.Closed() <==> turns != [] && Ends(links[|turns| - 1], turns[|turns| - 1])
    ensures states[n].p.sh.finished ==> states[n].p.sh.flags.Closed()
    ensures P.Quiet(states[n].p) && states[n].p.sh.flags.Closed() ==> states[n].p.sh.finished
  {
    var trace := RunLives(states, steps, inputs, n);
    links, turns := trace.links, trace.turns;
    EndOfLife(links, turns);
    FinishedMeansClosed(states, steps, inputs, n);
  }

  lemma FinishedMeansClosed(states: seq<Served>, steps: seq<P.Step>, inputs: seq<Turn>, n: nat)
    requires IsServedRun(states, steps, inputs) && n <= |steps|
    ensures states[n].p.sh.finished ==> states[n].p.sh.flags.Closed()
    ensures P.Quiet(states[n].p) && states[n].p.sh.flags.Closed() ==> states[n].p.sh.finished
  {
    ProtocolRun(states, steps, inputs, n);
    if P.Quiet(states[n].p) {
      P.NoOwnerAtRest(states[n].p);
    }
  }

  /** A holder whose connection is stranded, with nobody between a result and its store, is never
      finished, whatever events still come. */
  lemma {:induction false} StrandedForEver(states: seq<Served>, steps: seq<P.Step>, inputs: seq<Turn>, i: nat, n: nat)
    requires IsServedRun(states, steps, inputs) && i <= n <= |steps|
    requires Stranded(Link(states[i].p.sh.flags, states[i].session))
    requires var pcs := states[i].p.pcs;
      forall j :: 0 <= j < |pcs| ==> !pcs[j].AfterRead? && !pcs[j].AfterWrite?
    ensures P.Muted(states[n].p) && states[n].p.sh.flags == states[i].p.sh.flags
    ensures !states[n].p.sh.finished && states[n].session == states[i].session
    decreases n
  {
    if n == i {
      FinishedMeansClosed(states, steps, inputs, i);
    } else {
      StrandedForEver(states, steps, inputs, i, n - 1);
      assert ServedAt(states, steps, inputs, n - 1);
      P.MutedStep(states[n - 1].p, steps[n - 1], states[n].p);
    }
  }
}
