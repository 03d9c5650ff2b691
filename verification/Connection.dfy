/** One connection of the hash server: read() frames lines in place in a growing buffer and
    answers each, write() sends the answers with scatter sends. */
module Connection {
  import opened Framing
  import opened ScatterQueue
  import Change = HandlerProtocol

  const READ_BLOCK_SIZE := 128 * 1024
  const SHRINK_READ_SIZE := 64 * 1024

  /** process_input_message_ answers every line with seven zeros and a newline. */
  const ZERO: Byte := 48
  const REPLY: seq<Byte> := [ZERO, ZERO, ZERO, ZERO, ZERO, ZERO, ZERO, NEWLINE]

  /** The buffers that answer n lines. */
  function Replies(n: nat): seq<seq<Byte>> { seq(n, _ => REPLY) }

  // ----- the connection as a value, and whole sessions -----

  datatype Session = Session(pending: seq<Byte>, delivered: seq<seq<Byte>>, queue: Queue, wire: seq<Byte>)

  function Enqueued(q: Queue, n: nat): (r: Queue)
    requires q.Valid()
    ensures r.Valid()
  {
    Queue(q.bufs + Replies(n), q.first)
  }

  function AfterRead(c: Session, bytes: seq<Byte>): (r: Session)
    requires c.queue.Valid()
    ensures r.queue.Valid()
  {
    var lines := Lines(c.pending + bytes);
    Session(Rest(c.pending + bytes), c.delivered + lines, Enqueued(c.queue, |lines|), c.wire)
  }

  function AfterWrite(c: Session, sends: seq<nat>): (r: Session)
    requires c.queue.Valid() && Sendable(c.queue, sends)
    ensures r.queue.Valid()
  {
    c.(queue := AfterSends(c.queue, sends), wire := c.wire + Wire(c.queue, sends))
  }

  /** A call of read() with what its reads returned, or of write() with what its sends took. */
  datatype Call = Read(chunks: seq<seq<Byte>>) | Write(sends: seq<nat>)

  predicate Possible(c: Session, call: Call)
    requires c.queue.Valid()
  {
    call.Write? ==> Sendable(c.queue, call.sends)
  }

  function AfterCall(c: Session, call: Call): (r: Session)
    requires c.queue.Valid() && Possible(c, call)
    ensures r.queue.Valid()
  {
    match call
    case Read(chunks) => AfterRead(c, Concat(chunks))
    case Write(sends) => AfterWrite(c, sends)
  }

  predicate IsSession(c: Session, calls: seq<Call>)
    requires c.queue.Valid()
    decreases |calls|
  {
    calls == [] || (Possible(c, calls[0]) && IsSession(AfterCall(c, calls[0]), calls[1..]))
  }

  function AfterCalls(c: Session, calls: seq<Call>): (r: Session)
    requires c.queue.Valid() && IsSession(c, calls)
    ensures r.queue.Valid()
    decreases |calls|
  {
    if calls == [] then c else AfterCalls(AfterCall(c, calls[0]), calls[1..])
  }

  predicate IsClean(c: Session, calls: seq<Call>)
    requires c.queue.Valid() && IsSession(c, calls)
    decreases |calls|
  {
    calls == [] ||
    ((calls[0].Write? ==> CleanSends(c.queue, calls[0].sends))
     && IsClean(AfterCall(c, calls[0]), calls[1..]))
  }

  /** The read() calls of a session, each with the chunks its reads returned. */
  function ReadsOf(calls: seq<Call>): seq<seq<seq<Byte>>>
    decreases |calls|
  {
    if calls == [] then []
    else if calls[0].Read? then [calls[0].chunks] + ReadsOf(calls[1..])
    else ReadsOf(calls[1..])
  }

  /** All the bytes the reads of a session returned. */
  function BytesRead(calls: seq<Call>): seq<Byte> { Received(ReadsOf(calls)) }

  /** A session delivers, read by read, the lines that each chunk completes. */
  lemma {:induction false} SessionDelivers(c: Session, calls: seq<Call>)
    requires c.queue.Valid() && IsSession(c, calls) && NEWLINE !in c.pending
    ensures AfterCalls(c, calls).delivered == c.delivered + DeliveredByCalls(c.pending, ReadsOf(calls))
    ensures AfterCalls(c, calls).pending == CarriedByCalls(c.pending, ReadsOf(calls))
    decreases |calls|
  {
    if calls != [] {
      var next, more := AfterCall(c, calls[0]), ReadsOf(calls[1..]);
      SessionDelivers(next, calls[1..]);
      if calls[0].Read? {
        var chunks := calls[0].chunks;
        ChunkingIsInvisible(c.pending, chunks);
        FirstOf(chunks, more);
        Assoc(c.delivered, Delivered(c.pending, chunks), DeliveredByCalls(next.pending, more));
      }
    }
  }

  lemma FirstOf<T>(x: T, s: seq<T>)
    ensures ([x] + s)[0] == x && ([x] + s)[1..] == s
  {
  }

  /** Whatever the calls and however the bytes are cut, the lines delivered are those of the stream. */
  lemma SessionFrames(c: Session, calls: seq<Call>)
    requires c.queue.Valid() && IsSession(c, calls) && NEWLINE !in c.pending
    ensures AfterCalls(c, calls).delivered == c.delivered + Lines(c.pending + BytesRead(calls))
    ensures AfterCalls(c, calls).pending == Rest(c.pending + BytesRead(calls))
  {
    SessionDelivers(c, calls);
    CallsAreInvisible(c.pending, ReadsOf(calls));
  }

  /** Every delivered line has its answer on the wire or queued, once and in order. */
  predicate Answered(c: Session)
    requires c.queue.Valid()
  {
    c.wire + c.queue.Stream() == Concat(Replies(|c.delivered|))
  }

  lemma RepliesAppend(m: nat, n: nat)
    ensures Replies(m + n) == Replies(m) + Replies(n)
  {
  }

  lemma AnswersGrow(m: nat, n: nat)
    ensures Concat(Replies(m + n)) == Concat(Replies(m)) + Concat(Replies(n))
  {
    RepliesAppend(m, n);
    ConcatAppend(Replies(m), Replies(n));
  }

  /** A read queues one answer for each line it delivers. */
  lemma ReadQueues(c: Session, bytes: seq<Byte>) returns (n: nat)
    requires c.queue.Valid()
    ensures var r := AfterRead(c, bytes);
      && |r.delivered| == |c.delivered| + n && r.wire == c.wire
      && r.queue.Stream() == c.queue.Stream() + Concat(Replies(n))
  {
    n := |Lines(c.pending + bytes)|;
    AppendExtendsStream(c.queue, Replies(n));
  }

  lemma ReadKeepsAnswered(c: Session, bytes: seq<Byte>)
    requires c.queue.Valid() && Answered(c)
    ensures Answered(AfterRead(c, bytes))
  {
    var n := ReadQueues(c, bytes);
    AnswersGrow(|c.delivered|, n);
    Assoc(c.wire, c.queue.Stream(), Concat(Replies(n)));
  }

  lemma WriteKeepsAnswered(c: Session, sends: seq<nat>)
    requires c.queue.Valid() && Sendable(c.queue, sends) && CleanSends(c.queue, sends) && Answered(c)
    ensures Answered(AfterWrite(c, sends))
  {
    CleanSendsConserve(c.queue, sends);
    Assoc(c.wire, Wire(c.queue, sends), AfterSends(c.queue, sends).Stream());
  }

  lemma {:induction false} CleanSessionAnswers(c: Session, calls: seq<Call>)
    requires c.queue.Valid() && IsSession(c, calls) && IsClean(c, calls) && Answered(c)
    ensures Answered(AfterCalls(c, calls))
    decreases |calls|
  {
    if calls != [] {
      match calls[0] {
        case Read(chunks) => ReadKeepsAnswered(c, Concat(chunks));
        case Write(sends) => WriteKeepsAnswered(c, sends);
      }
      CleanSessionAnswers(AfterCall(c, calls[0]), calls[1..]);
    }
  }

  /** How many bytes more than the answers to the delivered lines are on the wire or queued. */
  function Surplus(c: Session): int
    requires c.queue.Valid()
  {
    |c.wire| + |c.queue.Stream()| - |Concat(Replies(|c.delivered|))|
  }

  lemma ReadKeepsSurplus(c: Session, bytes: seq<Byte>)
    requires c.queue.Valid()
    ensures Surplus(AfterRead(c, bytes)) == Surplus(c)
  {
    var n := ReadQueues(c, bytes);
    AnswersGrow(|c.delivered|, n);
  }

  /** No call lowers the surplus, and an unclean send raises it. */
  lemma {:induction false} SurplusGrows(c: Session, calls: seq<Call>)
    requires c.queue.Valid() && IsSession(c, calls)
    ensures Surplus(c) <= Surplus(AfterCalls(c, calls))
    ensures !IsClean(c, calls) ==> Surplus(c) < Surplus(AfterCalls(c, calls))
    decreases |calls|
  {
    if calls != [] {
      match calls[0] {
        case Read(chunks) => ReadKeepsSurplus(c, Concat(chunks));
        case Write(sends) => SendsNeverLose(c.queue, sends);
      }
      SurplusGrows(AfterCall(c, calls[0]), calls[1..]);
    }
  }

  /** A session in which everything is answered stays so if and only if its sends are clean. */
  lemma SessionAnswers(c: Session, calls: seq<Call>)
    requires c.queue.Valid() && IsSession(c, calls) && Answered(c)
    ensures Answered(AfterCalls(c, calls)) <==> IsClean(c, calls)
  {
    if IsClean(c, calls) {
      CleanSessionAnswers(c, calls);
    } else {
      SurplusGrows(c, calls);
    }
  }

  const OPENED := Session([], [], Queue([], 0), [])

  /** Over a whole connection: each line of the received stream is delivered once, in order; and the
      wire carries the answers to them and nothing else if and only if no buffer is sent partially
      twice. */
  lemma EveryLineIsAnswered(calls: seq<Call>)
    requires IsSession(OPENED, calls)
    ensures var c := AfterCalls(OPENED, calls);
      && c.delivered == Lines(BytesRead(calls)) && c.pending == Rest(BytesRead(calls))
      && (c.wire + c.queue.Stream() == Concat(Replies(|Lines(BytesRead(calls))|)) <==>
            IsClean(OPENED, calls))
  {
    SessionFrames(OPENED, calls);
    assert [] + BytesRead(calls) == BytesRead(calls);
    assert Answered(OPENED);
    SessionAnswers(OPENED, calls);
  }

  /** Two lines and the start of a third, in ASCII. */
  const AB_CD_E: seq<Byte> := [97, 98, 10, 99, 100, 10, 101]

  lemma TwoLines()
    ensures Lines(AB_CD_E) == [[97, 98], [99, 100]] && Rest(AB_CD_E) == [101]
  {
    TwoLinesJoined();
    LinesAreUnique([[97, 98], [99, 100]], [101]);
  }

  lemma TwoLinesJoined()
    ensures Unlines([[97, 98], [99, 100]]) + [101] == AB_CD_E
  {
    var ls: seq<seq<Byte>> := [[97, 98], [99, 100]];
    assert ls[1..] == [[99, 100]] && ls[1..][1..] == [];
    assert Unlines(ls[1..]) == [99, 100] + [10] + [];
  }

  lemma TwoReplies()
    ensures Concat(Replies(2)) == [48, 48, 48, 48, 48, 48, 48, 10, 48, 48, 48, 48, 48, 48, 48, 10]
  {
    assert Replies(2) == [REPLY, REPLY] && [REPLY, REPLY][1..] == [REPLY];
    assert Concat([REPLY]) == REPLY + Concat([]) == REPLY;
  }

  /** However they arrive, the two are delivered and, if its sends are clean, answered with seven zeros
      and a newline each. */
  lemma TwoLinesAnswered(calls: seq<Call>)
    requires IsSession(OPENED, calls) && BytesRead(calls) == AB_CD_E && IsClean(OPENED, calls)
    ensures var c := AfterCalls(OPENED, calls);
      && c.delivered == [[97, 98], [99, 100]] && c.pending == [101]
      && c.wire + c.queue.Stream() == [48, 48, 48, 48, 48, 48, 48, 10, 48, 48, 48, 48, 48, 48, 48, 10]
  {
    EveryLineIsAnswered(calls);
    TwoLines();
    TwoReplies();
  }

  /** One line arrives, and its answer is sent by a send of two bytes and one of one. */
  const REPEATING := [Read([[NEWLINE]]), Write([2, 1])]

  lemma OneLineQueued()
    ensures AfterRead(OPENED, Concat([[NEWLINE]])) == Session([], [[]], Queue([REPLY], 0), [])
  {
    assert Concat([[NEWLINE]]) == [NEWLINE] && [] + [NEWLINE] == [NEWLINE];
    LineInFront([], []);
    assert [] + [NEWLINE] + [] == [NEWLINE];
    NoLine([]);
  }

  lemma TwoPartialSends(q: Queue)
    requires q == Queue([REPLY], 0)
    ensures Sendable(q, [2, 1]) && !CleanSends(q, [2, 1])
    ensures AfterSends(q, [2, 1]) == Queue([REPLY], 1) && Wire(q, [2, 1]) == [ZERO, ZERO, ZERO]
  {
    var q' := Queue([REPLY], 2);
    WholeMessage(q);
    WholeMessage(q');
    assert AfterSend(q, 2) == q' && AfterSend(q', 1) == Queue([REPLY], 1);
    assert [2, 1][1..] == [1] && [1][1..] == [];
    assert Sendable(q', [1]) && !CleanSends(q', [1]);
    assert Wire(q', [1]) == [ZERO];
  }

  lemma WholeMessage(q: Queue)
    requires q.Valid() && q.bufs == [REPLY]
    ensures q.Message() == REPLY[q.first..]
  {
    assert q.bufs[..1] == q.bufs && q.bufs[1..] == [];
    assert REPLY[q.first..] + [] == REPLY[q.first..];
  }

  /** A second partial send of the same answer: its third byte is sent again, and ten bytes have gone
      or will go for an answer of eight. */
  lemma SecondPartialSendRepeats()
    ensures IsSession(OPENED, REPEATING) && !Answered(AfterCalls(OPENED, REPEATING))
    ensures AfterCalls(OPENED, REPEATING) == Session([], [[]], Queue([REPLY], 1), [ZERO, ZERO, ZERO])
  {
    var c := Session([], [[]], Queue([REPLY], 0), []);
    OneLineQueued();
    TwoPartialSends(c.queue);
    var calls := REPEATING;
    assert calls[1..] == [Write([2, 1])] && calls[1..][1..] == [];
    assert IsSession(c, calls[1..]) && !IsClean(c, calls[1..]);
    assert AfterCalls(c, calls[1..]) == AfterWrite(c, [2, 1]);
    assert AfterCalls(OPENED, calls) == AfterCalls(c, calls[1..]);
    assert Answered(OPENED);
    SessionAnswers(OPENED, calls);
  }

  // ----- the handler object -----

  /** How a run of reads ends: EAGAIN, another error, or end of stream. */
  datatype ReadEnd = WouldBlock | ReadFailed | EndOfStream

  /** How a run of sends ends when something is left: EAGAIN or nothing sent, or another error. */
  datatype WriteEnd = Blocked | WriteFailed

  /** Reading is neither started nor stopped, and the poller goes on. */
  predicate NoReadChange(change: bv64) {
    && !Change.Has(change, Change.START_READ_HANDLE) && !Change.Has(change, Change.STOP_READ_HANDLE)
    && !Change.Has(change, Change.STOP_PROCESSING)
  }

  /** What read() returns; `left` says whether answers are waiting. */
  function ReadChange(left: bool, end: ReadEnd): (change: bv64)
    ensures Change.Has(change, Change.CLOSE_READ_HANDLE) <==> end != WouldBlock
    ensures Change.Has(change, Change.CLOSE_WRITE_HANDLE)
       <==> end == ReadFailed || (end == EndOfStream && !left)
    ensures Change.Has(change, Change.START_WRITE_HANDLE) <==> end != ReadFailed && left
    ensures Change.Has(change, Change.STOP_WRITE_HANDLE) <==> end == WouldBlock && !left
    ensures NoReadChange(change)
  {
    match end
    case WouldBlock => if left then Change.START_WRITE_HANDLE else Change.STOP_WRITE_HANDLE
    case ReadFailed => Change.CLOSE_READ_HANDLE | Change.CLOSE_WRITE_HANDLE
    case EndOfStream =>
      if left then Change.CLOSE_READ_HANDLE | Change.START_WRITE_HANDLE
      else Change.CLOSE_READ_HANDLE | Change.CLOSE_WRITE_HANDLE
  }

  /** What write() returns. */
  function WriteChange(left: bool, end: WriteEnd): (change: bv64)
    ensures Change.Has(change, Change.STOP_WRITE_HANDLE) <==> !left
    ensures Change.Has(change, Change.CLOSE_WRITE_HANDLE) <==> left && end == WriteFailed
    ensures Change.Has(change, Change.CLOSE_READ_HANDLE) <==> left && end == WriteFailed
    ensures !Change.Has(change, Change.START_WRITE_HANDLE)
    ensures NoReadChange(change)
  {
    if !left then Change.STOP_WRITE_HANDLE
    else match end
      case Blocked => 0
      case WriteFailed => Change.CLOSE_READ_HANDLE | Change.CLOSE_WRITE_HANDLE
  }

  class HashConnectionDescriptorHandler {
    var readProcessed: nat
    var readPos: nat
    var readBuf: array<Byte>
    var writeBufs: seq<seq<Byte>>
    var firstWritePos: nat
    var writeIovec: seq<Iovec>
    var writeMsg: seq<Iovec>
    ghost var delivered: seq<seq<Byte>>
    ghost var wire: seq<Byte>

    predicate ReadShape()
      reads this
    {
      readProcessed <= readPos <= readBuf.Length
    }

    function Pending(): seq<Byte>
      requires ReadShape()
      reads this, readBuf
    {
      readBuf[readProcessed..readPos]
    }

    function WriteQueue(): Queue
      reads this
    {
      Queue(writeBufs, firstWritePos)
    }

    /** List, iovec array and message header describe the same pending bytes. */
    predicate WriteShape()
      reads this
    {
      && WriteQueue().Valid()
      && Mirrors(writeIovec, WriteQueue())
      && writeMsg == writeIovec[..WriteQueue().MessageLength()]
    }

    /** What holds between calls. */
    predicate Valid()
      reads this, readBuf
    {
      && ReadShape() && NEWLINE !in Pending() && readProcessed <= SHRINK_READ_SIZE
      && WriteShape()
    }

    ghost function Value(): Session
      requires ReadShape()
      reads this, readBuf
    {
      Session(Pending(), delivered, WriteQueue(), wire)
    }

    constructor ()
      ensures Valid() && fresh(readBuf) && Value() == OPENED
    {
      readProcessed, readPos, firstWritePos := 0, 0, 0;
      writeBufs, writeIovec, writeMsg, delivered, wire := [], [], [], [], [];
      readBuf := new Byte[0];
    }

    method AddWriteBuf(buf: seq<Byte>)
      requires WriteShape()
      modifies this`writeBufs, this`writeIovec, this`writeMsg
      ensures WriteShape()
      ensures writeBufs == old(writeBufs) + [buf]
    {
      writeBufs := writeBufs + [buf];
      writeIovec := writeIovec + [Iovec(buf, 0, |buf|)];
      writeMsg := writeIovec[..if |writeIovec| < MSG_MAXIOVLEN then |writeIovec| else MSG_MAXIOVLEN];
    }

    /** The message itself is not used: the answer is always the same. */
    method ProcessInputMessage(ghost line: seq<Byte>)
      requires WriteShape()
      modifies this`writeBufs, this`writeIovec, this`writeMsg, this`delivered
      ensures WriteShape()
      ensures writeBufs == old(writeBufs) + [REPLY] && delivered == old(delivered) + [line]
    {
      AddWriteBuf(REPLY);
      delivered := delivered + [line];
    }

    /** std::find over the unprocessed region. */
    method FindInPending() returns (at: nat)
      requires ReadShape()
      ensures at == readProcessed + FindNewline(Pending())
    {
      at := readProcessed;
      while at != readPos && readBuf[at] != NEWLINE
        invariant readProcessed <= at <= readPos
        invariant forall k :: readProcessed <= k < at ==> readBuf[k] != NEWLINE
        decreases readPos - at
      {
        at := at + 1;
      }
      ghost var i := at - readProcessed;
      assert forall k :: 0 <= k < i ==> Pending()[k] == readBuf[readProcessed + k];
      if at < readPos {
        assert Pending()[i] == readBuf[at];
        FindIs(Pending(), i);
      } else {
        FindNone(Pending());
      }
    }

    /** Make room for a whole block behind what is kept. */
    method Reserve()
      requires ReadShape()
      modifies this`readBuf
      ensures ReadShape() && readBuf.Length >= readPos + READ_BLOCK_SIZE
      ensures Pending() == old(Pending())
      ensures readBuf.Length == (if old(readBuf.Length) < readPos + 0x2_0000 then readPos + 0x2_0000
                                 else old(readBuf.Length))
      ensures readBuf == old(readBuf) || fresh(readBuf)
    {
      if readBuf.Length < readPos + READ_BLOCK_SIZE {
        var grown := new Byte[readPos + READ_BLOCK_SIZE];
        forall k | 0 <= k < readBuf.Length {
          grown[k] := readBuf[k];
        }
        assert grown[readProcessed..readPos] == Pending();
        readBuf := grown;
      }
    }

    /** ::read placed some bytes behind the kept ones. */
    method Receive(data: seq<Byte>)
      requires ReadShape() && readPos + |data| <= readBuf.Length
      modifies this`readPos, readBuf
      ensures ReadShape() && Pending() == old(Pending()) + data
    {
      forall k | 0 <= k < |data| {
        readBuf[readPos + k] := data[k];
      }
      readPos := readPos + |data|;
    }

    /** Hand one complete line to process_input_message_ and step over it. */
    method DeliverLine(at: nat)
      requires ReadShape() && WriteShape()
      requires at == readProcessed + FindNewline(Pending()) < readPos
      modifies this`readProcessed, this`writeBufs, this`writeIovec, this`writeMsg, this`delivered
      ensures ReadShape() && WriteShape() && readProcessed == at + 1
      ensures Value() == LineDelivered(old(Value()))
    {
      ghost var s := Pending();
      ProcessInputMessage(s[..at - readProcessed]);
      assert s[at + 1 - readProcessed..] == readBuf[at + 1..readPos];
      readProcessed := at + 1;
    }

    /** Hand over every complete line. */
    method DeliverLines()
      requires ReadShape() && WriteShape()
      modifies this`readProcessed, this`writeBufs, this`writeIovec, this`writeMsg, this`delivered
      ensures ReadShape() && WriteShape() && NEWLINE !in Pending()
      ensures Value() == AfterRead(old(Value()), [])
    {
      ghost var before := Value();
      var at := FindInPending();
      while at != readPos
        invariant ReadShape() && WriteShape()
        invariant at == readProcessed + FindNewline(Pending())
        invariant AfterRead(before, []) == AfterRead(Value(), [])
        decreases readPos - readProcessed
      {
        LineStep(Value());
        DeliverLine(at);
        at := FindInPending();
      }
      FindsNothing(Pending());
      ReadNothing(Value());
    }

    /** Copy a region to the front of its array, in place and forwards. */
    static method CopyDown(a: array<Byte>, lo: nat, hi: nat)
      requires lo <= hi <= a.Length
      modifies a
      ensures a[..hi - lo] == old(a[lo..hi])
    {
      ghost var was := a[..];
      var to, from := 0, lo;
      while from != hi
        invariant lo <= from <= hi && to == from - lo
        invariant forall j :: 0 <= j < to ==> a[j] == was[lo + j]
        invariant forall k :: from <= k < hi ==> a[k] == was[k]
        decreases hi - from
      {
        a[to] := a[from];
        from := from + 1;
        to := to + 1;
      }
    }

    /** The unprocessed region goes to the front. */
    method MoveToFront()
      requires ReadShape()
      modifies readBuf
      ensures readBuf[..readPos - readProcessed] == old(Pending())
    {
      CopyDown(readBuf, readProcessed, readPos);
    }

    /** Compact once enough has been processed. */
    method Shrink()
      requires ReadShape()
      modifies this`readProcessed, this`readPos, readBuf
      ensures ReadShape() && Value() == old(Value())
      ensures readProcessed == (if old(readProcessed) <= 0x1_0000 then old(readProcessed) else 0)
    {
      if readProcessed > SHRINK_READ_SIZE {
        MoveToFront();
        readPos := readPos - readProcessed;
        readProcessed := 0;
      }
    }

    /** Make room and read into it. */
    method Fill(data: seq<Byte>)
      requires ReadShape() && |data| <= READ_BLOCK_SIZE
      modifies this`readBuf, this`readPos, readBuf
      ensures ReadShape() && (readBuf == old(readBuf) || fresh(readBuf))
      ensures Value() == old(Value()).(pending := old(Pending()) + data)
    {
      Reserve();
      Receive(data);
    }

    /** One turn of the read loop, for a read that got some bytes. */
    method ReadBlock(data: seq<Byte>)
      requires Valid() && 0 < |data| <= READ_BLOCK_SIZE
      modifies this, readBuf
      ensures Valid() && (readBuf == old(readBuf) || fresh(readBuf))
      ensures Value() == AfterRead(old(Value()), data)
    {
      ghost var before := Value();
      Fill(data);
      ReceivedThenScanned(before, data);
      DeliverLines();
      Shrink();
    }

    /** read(): the reads return `chunks` and then `end`. */
    method Read(chunks: seq<seq<Byte>>, end: ReadEnd) returns (change: bv64)
      requires Valid() && forall k :: 0 <= k < |chunks| ==> 0 < |chunks[k]| <= READ_BLOCK_SIZE
      modifies this, readBuf
      ensures Valid() && (readBuf == old(readBuf) || fresh(readBuf))
      ensures Value() == AfterRead(old(Value()), Concat(chunks))
      ensures delivered == old(delivered) + Delivered(old(Pending()), chunks)
      ensures Pending() == Carried(old(Pending()), chunks)
      ensures readPos <= |Pending()| + SHRINK_READ_SIZE
      ensures change == ReadChange(writeBufs != [], end)
    {
      ghost var before := Value();
      ghost var left := chunks;
      ChunkingIsInvisible(before.pending, chunks);
      ReadNothing(before);
      var i := 0;
      while i < |chunks|
        invariant i <= |chunks| && left == chunks[i..]
        invariant Valid() && (readBuf == old(readBuf) || fresh(readBuf))
        invariant AfterRead(before, Concat(chunks)) == AfterRead(Value(), Concat(left))
      {
        ReadInParts(Value(), chunks[i], Concat(left[1..]));
        ReadBlock(chunks[i]);
        i := i + 1;
        left := left[1..];
      }
      ReadNothing(Value());
      change := ReadChange(writeBufs != [], end);
    }

    /** Erase what was sent and patch the head that stays. */
    method ReconfigureWriteBufs(sent: nat)
      requires WriteShape() && (sent > 0 ==> writeBufs != [])
      modifies this`writeBufs, this`firstWritePos, this`writeIovec, this`writeMsg
      ensures WriteShape()
      ensures WriteQueue() == AfterSend(old(WriteQueue()), sent)
    {
      if sent > 0 {
        var prevSize := 0;
        var size := |writeBufs[0]| - firstWritePos;
        var i := 0;
        while size <= sent
          invariant i < |writeBufs| && prevSize <= sent
          invariant if i == 0 then prevSize == 0 && size == |writeBufs[0]| - firstWritePos
                    else size == prevSize + |writeBufs[i]|
          invariant i > 0 ==> AfterSend(WriteQueue(), sent) == AfterWhole(writeBufs[i..], sent - prevSize)
          decreases |writeBufs| - i
        {
          i := i + 1;
          if i == |writeBufs| {
            break;
          }
          prevSize := size;
          size := size + |writeBufs[i]|;
        }
        writeBufs := writeBufs[i..];
        writeIovec := writeIovec[i..];
        if size > sent && prevSize < sent {
          firstWritePos := sent - prevSize;
          writeIovec := writeIovec[0 := Iovec(writeBufs[0], firstWritePos, |writeBufs[0]| - firstWritePos)];
        } else {
          firstWritePos := 0;
        }
        writeMsg := writeIovec[..if |writeIovec| < MSG_MAXIOVLEN then |writeIovec| else MSG_MAXIOVLEN];
      }
    }

    /** One sendmsg that takes `sent` bytes of the message, and the bookkeeping after it. */
    method SendOnce(sent: nat)
      requires Valid() && writeBufs != [] && sent <= |WriteQueue().Message()|
      modifies this`writeBufs, this`firstWritePos, this`writeIovec, this`writeMsg, this`wire
      ensures Valid() && Value() == AfterOne(old(Value()), sent)
    {
      MessageGathers(writeIovec, WriteQueue());
      wire := wire + Gather(writeMsg)[..sent];
      ReconfigureWriteBufs(sent);
    }

    /** write(): the sends take `sends` and, if something is left then, the next one gives `end`. */
    method Write(sends: seq<nat>, end: WriteEnd) returns (change: bv64)
      requires Valid() && Sendable(WriteQueue(), sends)
      modifies this`writeBufs, this`firstWritePos, this`writeIovec, this`writeMsg, this`wire
      ensures Valid()
      ensures Value() == AfterWrite(old(Value()), sends)
      ensures change == WriteChange(writeBufs != [], end)
    {
      ghost var before := Value();
      var left := sends;
      while left != []
        invariant Valid() && Sendable(Value().queue, left)
        invariant AfterWrite(before, sends) == AfterWrite(Value(), left)
        decreases |left|
      {
        WriteInParts(Value(), left);
        SendOnce(left[0]);
        left := left[1..];
      }
      WriteNothing(Value());
      change := WriteChange(writeBufs != [], end);
    }
  }

  /** One line handed over and answered. */
  ghost function LineDelivered(c: Session): (r: Session)
    requires c.queue.Valid() && FindNewline(c.pending) < |c.pending|
    ensures r.queue.Valid()
  {
    var i := FindNewline(c.pending);
    Session(c.pending[i + 1..], c.delivered + [c.pending[..i]], Queue(c.queue.bufs + [REPLY], c.queue.first), c.wire)
  }

  lemma LineStep(c: Session)
    requires c.queue.Valid() && FindNewline(c.pending) < |c.pending|
    ensures AfterRead(c, []) == AfterRead(LineDelivered(c), [])
  {
    var s, i := c.pending, FindNewline(c.pending);
    LinesStep(s, i);
    NothingArrived(s);
    NothingArrived(s[i + 1..]);
    Assoc(c.delivered, [s[..i]], Lines(s[i + 1..]));
    AnswerFirst(c.queue.bufs, |Lines(s[i + 1..])|);
  }

  lemma NothingArrived(s: seq<Byte>)
    ensures s + [] == s
  {
  }

  lemma AnswerFirst(bufs: seq<seq<Byte>>, n: nat)
    ensures bufs + Replies(1 + n) == bufs + [REPLY] + Replies(n)
  {
  }

  lemma ReceivedThenScanned(c: Session, data: seq<Byte>)
    requires c.queue.Valid()
    ensures AfterRead(c.(pending := c.pending + data), []) == AfterRead(c, data)
  {
    assert c.pending + data + [] == c.pending + data;
  }

  lemma ReadNothing(c: Session)
    requires c.queue.Valid() && NEWLINE !in c.pending
    ensures AfterRead(c, []) == c
  {
    NothingArrived(c.pending);
    NoLine(c.pending);
    assert c.queue.bufs + Replies(0) == c.queue.bufs;
  }

  lemma RepliesInParts(bufs: seq<seq<Byte>>, m: nat, n: nat)
    ensures bufs + Replies(m + n) == bufs + Replies(m) + Replies(n)
  {
    RepliesAppend(m, n);
    Assoc(bufs, Replies(m), Replies(n));
  }

  /** Reading in two parts is reading at once. */
  lemma ReadInParts(c: Session, a: seq<Byte>, b: seq<Byte>)
    requires c.queue.Valid()
    ensures AfterRead(c, a + b) == AfterRead(AfterRead(c, a), b)
  {
    var first := Lines(c.pending + a);
    var second := Lines(Rest(c.pending + a) + b);
    Assoc(c.pending, a, b);
    LinesAppend(c.pending + a, b);
    Assoc(c.delivered, first, second);
    RepliesInParts(c.queue.bufs, |first|, |second|);
  }

  /** One send, whether clean or not. */
  ghost function AfterOne(c: Session, sent: nat): (r: Session)
    requires c.queue.Valid() && c.queue.bufs != [] && sent <= |c.queue.Message()|
    ensures r.queue.Valid()
  {
    c.(queue := AfterSend(c.queue, sent), wire := c.wire + c.queue.Message()[..sent])
  }

  lemma WriteNothing(c: Session)
    requires c.queue.Valid()
    ensures AfterWrite(c, []) == c
  {
    assert c.wire + [] == c.wire;
  }

  lemma WriteInParts(c: Session, sends: seq<nat>)
    requires c.queue.Valid() && Sendable(c.queue, sends) && sends != []
    ensures var next := AfterOne(c, sends[0]);
      Sendable(next.queue, sends[1..]) && AfterWrite(c, sends) == AfterWrite(next, sends[1..])
  {
    var next := AfterSend(c.queue, sends[0]);
    Assoc(c.wire, c.queue.Message()[..sends[0]], Wire(next, sends[1..]));
  }
}
