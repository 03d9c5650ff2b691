/** When a hash connection is closed: the results of its handler, applied pass by pass to the flags of
    its holder as handle_ does. */
module ConnectionClosing {
  import opened Connection
  import opened ScatterQueue
  import opened Framing
  import Protocol = HandlerProtocol

  /** The holder's flags together with the connection its handler serves. */
  datatype Link = Link(flags: Protocol.Flags, session: Session) {
    predicate Valid() { session.queue.Valid() }

    /** Answers are waiting to be sent. */
    predicate Left() { session.queue.bufs != [] }
  }

  /** What the kernel does in one pass: how the reads end after some chunks, and the sends. */
  datatype Turn = Turn(chunks: seq<seq<Byte>>, readEnd: ReadEnd, sends: seq<nat>, writeEnd: WriteEnd)

  /** read(), if it is wanted, and its result applied. */
  function ReadPart(l: Link, turn: Turn): (r: Link)
    requires l.Valid()
    ensures r.Valid()
  {
    if !l.flags.handleRead then l else
    var c := AfterRead(l.session, Concat(turn.chunks));
    Link(Protocol.Applied(l.flags, ReadChange(c.queue.bufs != [], turn.readEnd)), c)
  }

  /** write(), if it is wanted, and its result applied. */
  function WritePart(l: Link, turn: Turn): (r: Link)
    requires l.Valid() && (l.flags.handleWrite ==> Sendable(l.session.queue, turn.sends))
    ensures r.Valid()
  {
    if !l.flags.handleWrite then l else
    var c := AfterWrite(l.session, turn.sends);
    Link(Protocol.Applied(l.flags, WriteChange(c.queue.bufs != [], turn.writeEnd)), c)
  }

  predicate MayTurn(l: Link, turn: Turn)
    requires l.Valid()
  {
    var read := ReadPart(l, turn);
    read.flags.handleWrite ==> Sendable(read.session.queue, turn.sends)
  }

  function AfterTurn(l: Link, turn: Turn): (r: Link)
    requires l.Valid() && MayTurn(l, turn)
    ensures r.Valid()
  {
    WritePart(ReadPart(l, turn), turn)
  }

  /** The two actions of the protocol around read(), and those around write(). */
  function ReadActions(sh: Protocol.Shared, rearm: bool, change: bv64): (Protocol.Pc, Protocol.Shared) {
    var (pc, s) := Protocol.Pass(Protocol.PassRead(rearm), sh, change);
    if pc.AfterRead? then Protocol.Pass(pc, s, change) else (pc, s)
  }

  function WriteActions(sh: Protocol.Shared, rearm: bool, change: bv64): (Protocol.Pc, Protocol.Shared) {
    var (pc, s) := Protocol.Pass(Protocol.PassWrite(rearm), sh, change);
    if pc.AfterWrite? then Protocol.Pass(pc, s, change) else (pc, s)
  }

  lemma ReadActionsApply(sh: Protocol.Shared, rearm: bool, change: bv64)
    ensures var flags := if sh.flags.handleRead then Protocol.Applied(sh.flags, change) else sh.flags;
      ReadActions(sh, rearm, change) == (Protocol.PassWrite(rearm), sh.(flags := flags))
  {
  }

  lemma WriteActionsApply(sh: Protocol.Shared, rearm: bool, change: bv64)
    ensures var flags := if sh.flags.handleWrite then Protocol.Applied(sh.flags, change) else sh.flags;
      WriteActions(sh, rearm, change) == (Protocol.PassCheck(rearm), sh.(flags := flags))
  {
  }

  /** A pass of the protocol with the results of this handler has the effect of a turn on the flags,
      which no other thread touches meanwhile, and comes to the test of the closed flags. */
  lemma PassIsTurn(l: Link, turn: Turn, sh: Protocol.Shared, rearm: bool)
    requires l.Valid() && MayTurn(l, turn) && sh.flags == l.flags
    ensures var read, after := ReadPart(l, turn), AfterTurn(l, turn);
      && ReadActions(sh, rearm, ReadChange(read.Left(), turn.readEnd))
         == (Protocol.PassWrite(rearm), sh.(flags := read.flags))
      && WriteActions(sh.(flags := read.flags), rearm, WriteChange(after.Left(), turn.writeEnd))
         == (Protocol.PassCheck(rearm), sh.(flags := after.flags))
  {
    var read, after := ReadPart(l, turn), AfterTurn(l, turn);
    ReadActionsApply(sh, rearm, ReadChange(read.Left(), turn.readEnd));
    WriteActionsApply(sh.(flags := read.flags), rearm, WriteChange(after.Left(), turn.writeEnd));
  }

  // ----- the life of a connection -----

  const OPENED_LINK := Link(Protocol.INITIAL_FLAGS, OPENED)

  /** The stream has not ended. */
  predicate Reading(l: Link) { l.flags.handleRead && !l.flags.readClosed && !l.flags.writeClosed }

  /** The stream has ended while answers were waiting, and they are still being sent. */
  predicate Draining(l: Link) { l.flags == Protocol.Flags(false, true, true, false) && l.Left() }

  /** They have all been sent: neither side is wanted, and only one is closed. */
  predicate Stranded(l: Link) { l.flags == Protocol.Flags(false, false, true, false) && !l.Left() }

  /** The pass meets an error, or the end of the stream with every answer sent before. */
  predicate Ends(l: Link, turn: Turn)
    requires l.Valid() && MayTurn(l, turn)
  {
    var read := ReadPart(l, turn);
    || (l.flags.handleRead && turn.readEnd == ReadFailed)
    || (l.flags.handleRead && turn.readEnd == EndOfStream && !read.Left())
    || (read.flags.handleWrite && AfterTurn(l, turn).Left() && turn.writeEnd == WriteFailed)
  }

  /** The pass meets the end of the stream, or has met it before, and sends the last of the answers
      that were waiting. */
  predicate Strands(l: Link, turn: Turn)
    requires l.Valid() && MayTurn(l, turn)
  {
    var read := ReadPart(l, turn);
    && (l.flags.handleRead ==> turn.readEnd == EndOfStream) && read.Left()
    && !AfterTurn(l, turn).Left()
  }

  /** A pass closes the connection exactly when it ends it, and strands it exactly when it sends the
      last answer after the end of the stream; otherwise it goes on reading or draining. */
  lemma OneTurn(l: Link, turn: Turn)
    requires l.Valid() && MayTurn(l, turn) && (Reading(l) || Draining(l))
    ensures var r := AfterTurn(l, turn);
      && (r.flags.Closed() <==> Ends(l, turn))
      && (Stranded(r) <==> Strands(l, turn))
      && (!Ends(l, turn) && !Strands(l, turn) ==> Reading(r) || Draining(r))
  {
  }

  lemma StrandedTurn(l: Link, turn: Turn)
    requires l.Valid() && Stranded(l)
    ensures MayTurn(l, turn) && AfterTurn(l, turn) == l && !Ends(l, turn)
  {
  }

  /** Passes go on until both sides are closed. */
  predicate TurnAt(links: seq<Link>, turns: seq<Turn>, k: int) {
    && 0 <= k < |turns| && k + 1 < |links| && links[k].Valid() && !links[k].flags.Closed()
    && MayTurn(links[k], turns[k]) && links[k + 1] == AfterTurn(links[k], turns[k])
  }

  predicate IsLife(links: seq<Link>, turns: seq<Turn>) {
    && |links| == |turns| + 1 && links[0] == OPENED_LINK
    && forall k :: 0 <= k < |turns| ==> TurnAt(links, turns, k)
  }

  lemma {:induction false} Phases(links: seq<Link>, turns: seq<Turn>, n: nat)
    requires IsLife(links, turns) && n <= |turns|
    ensures links[n].Valid()
    ensures links[n].flags.Closed() || Reading(links[n]) || Draining(links[n]) || Stranded(links[n])
    decreases n
  {
    if n > 0 {
      Phases(links, turns, n - 1);
      assert TurnAt(links, turns, n - 1);
      if Stranded(links[n - 1]) {
        StrandedTurn(links[n - 1], turns[n - 1]);
      } else {
        OneTurn(links[n - 1], turns[n - 1]);
      }
    }
  }

  /** Over every life of a connection both sides are closed after a pass exactly when that pass met an
      error, or the end of the stream with no answer waiting. */
  lemma ClosedExactlyWhen(links: seq<Link>, turns: seq<Turn>, n: nat)
    requires IsLife(links, turns) && 0 < n <= |turns|
    ensures TurnAt(links, turns, n - 1)
    ensures links[n].flags.Closed() <==> Ends(links[n - 1], turns[n - 1])
  {
    Phases(links, turns, n - 1);
    assert TurnAt(links, turns, n - 1);
    if Stranded(links[n - 1]) {
      StrandedTurn(links[n - 1], turns[n - 1]);
    } else {
      OneTurn(links[n - 1], turns[n - 1]);
    }
  }

  /** A connection whose last answer is sent after the end of the stream is never closed. */
  lemma {:induction false} StaysOpen(links: seq<Link>, turns: seq<Turn>, k: nat, n: nat)
    requires IsLife(links, turns) && k < n <= |turns| && TurnAt(links, turns, k)
    requires !Stranded(links[k]) && Strands(links[k], turns[k])
    ensures Stranded(links[n]) && !links[n].flags.Closed()
    decreases n
  {
    if n == k + 1 {
      Phases(links, turns, k);
      OneTurn(links[k], turns[k]);
    } else {
      StaysOpen(links, turns, k, n - 1);
      assert TurnAt(links, turns, n - 1);
      StrandedTurn(links[n - 1], turns[n - 1]);
    }
  }

  /** Pass k is the one that strands the connection. */
  predicate StrandsAt(links: seq<Link>, turns: seq<Turn>, k: int) {
    TurnAt(links, turns, k) && !Stranded(links[k]) && Strands(links[k], turns[k])
  }

  /** Over every life a connection is stranded exactly when some pass before sent the last answer after
      the end of the stream. */
  lemma {:induction false} StrandedExactlyWhen(links: seq<Link>, turns: seq<Turn>, n: nat)
    requires IsLife(links, turns) && n <= |turns|
    ensures Stranded(links[n]) <==> exists k :: 0 <= k < n && StrandsAt(links, turns, k)
    decreases n
  {
    if n > 0 {
      var k := n - 1;
      assert TurnAt(links, turns, k);
      Phases(links, turns, k);
      StrandedExactlyWhen(links, turns, k);
      if Stranded(links[k]) {
        StrandedTurn(links[k], turns[k]);
      } else {
        OneTurn(links[k], turns[k]);
        assert Strands(links[k], turns[k]) ==> StrandsAt(links, turns, k);
      }
    }
  }

  /** A peer that sends one line and ends the stream at once, and takes its answer whole. */
  const ONE_LINE := Turn([[NEWLINE]], EndOfStream, [8], Blocked)

  lemma AnswerTaken(q: Queue)
    requires q == Queue([REPLY], 0)
    ensures Sendable(q, [8]) && AfterSends(q, [8]) == Queue([], 0)
  {
    WholeMessage(q);
    assert AfterSend(q, 8) == Queue([], 0);
    assert [8][1..] == [];
  }

  /** It leaves its connection stranded. */
  lemma OneLineStrands()
    ensures MayTurn(OPENED_LINK, ONE_LINE) && Strands(OPENED_LINK, ONE_LINE)
    ensures Stranded(AfterTurn(OPENED_LINK, ONE_LINE))
  {
    OneLineQueued();
    var read := ReadPart(OPENED_LINK, ONE_LINE);
    AnswerTaken(read.session.queue);
    assert MayTurn(OPENED_LINK, ONE_LINE);
    OneTurn(OPENED_LINK, ONE_LINE);
  }

  /** And in the protocol, whatever events still come, its holder is never stopped or cleaned up. */
  lemma StrandedHolderStays(states: seq<Protocol.State>, steps: seq<Protocol.Step>, i: nat, n: nat, l: Link)
    requires Protocol.IsRun(states, steps) && i <= n <= |steps|
    requires Stranded(l) && states[i].sh.flags == l.flags
    requires forall j :: 0 <= j < |states[i].pcs| ==> !states[i].pcs[j].AfterRead? && !states[i].pcs[j].AfterWrite?
    ensures states[n].sh.flags == l.flags && !states[n].sh.finished && states[n].sh.pushes == 0
  {
    Protocol.RunInv(states, steps, i);
    Protocol.MutedStays(states, steps, i, n);
  }
}
