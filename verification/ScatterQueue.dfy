/** The queue of buffers waiting to be sent, the iovec array that mirrors it, and what one
    partial send takes from it. */
module ScatterQueue {
  import opened Framing

  const MSG_MAXIOVLEN := 64

  /** write_bufs_ and first_write_buf_pos_. */
  datatype Queue = Queue(bufs: seq<seq<Byte>>, first: nat) {
    predicate Valid() {
      if bufs == [] then first == 0 else first == 0 || first < |bufs[0]|
    }

    /** The bytes still to be sent. */
    function Stream(): seq<Byte>
      requires Valid()
    {
      if bufs == [] then [] else bufs[0][first..] + Concat(bufs[1..])
    }

    /** How many buffers one sendmsg may take. */
    function MessageLength(): (n: nat)
      ensures n <= |bufs| && (bufs != [] ==> n > 0)
    {
      if |bufs| < MSG_MAXIOVLEN then |bufs| else MSG_MAXIOVLEN
    }

    /** The bytes one sendmsg is offered. */
    function Message(): seq<Byte>
      requires Valid()
    {
      Queue(bufs[..MessageLength()], first).Stream()
    }
  }

  /** `len` bytes of a buffer from `base`. */
  datatype Iovec = Iovec(buf: seq<Byte>, base: nat, len: nat) {
    predicate Fits() { base + len <= |buf| }

    function Bytes(): seq<Byte>
      requires Fits()
    {
      buf[base..base + len]
    }
  }

  /** Entry k of the iovec array: all of buffer k, but the head only from `first`. */
  function EntryFor(q: Queue, k: nat): Iovec
    requires q.Valid() && k < |q.bufs|
  {
    var base := if k == 0 then q.first else 0;
    Iovec(q.bufs[k], base, |q.bufs[k]| - base)
  }

  predicate Mirrors(iov: seq<Iovec>, q: Queue)
    requires q.Valid()
  {
    |iov| == |q.bufs| && forall k :: 0 <= k < |iov| ==> iov[k] == EntryFor(q, k)
  }

  /** What the kernel reads through an iovec array. */
  function Gather(iov: seq<Iovec>): seq<Byte>
    requires forall k :: 0 <= k < |iov| ==> iov[k].Fits()
  {
    if iov == [] then [] else iov[0].Bytes() + Gather(iov[1..])
  }

  lemma {:induction false} GatherWhole(iov: seq<Iovec>, bufs: seq<seq<Byte>>)
    requires |iov| == |bufs|
    requires forall k :: 0 <= k < |iov| ==> iov[k] == Iovec(bufs[k], 0, |bufs[k]|)
    ensures Gather(iov) == Concat(bufs)
    decreases |bufs|
  {
    if iov != [] {
      assert iov[0].Bytes() == bufs[0];
      GatherWhole(iov[1..], bufs[1..]);
    }
  }

  /** A mirroring array gathers exactly the pending stream. */
  lemma MirrorGathers(iov: seq<Iovec>, q: Queue)
    requires q.Valid() && Mirrors(iov, q)
    ensures forall k :: 0 <= k < |iov| ==> iov[k].Fits()
    ensures Gather(iov) == q.Stream()
  {
    if q.bufs != [] {
      assert iov[0] == EntryFor(q, 0);
      assert iov[0].Bytes() == q.bufs[0][q.first..];
      forall k | 0 <= k < |iov| - 1
        ensures iov[1..][k] == Iovec(q.bufs[1..][k], 0, |q.bufs[1..][k]|)
      {
        assert iov[k + 1] == EntryFor(q, k + 1);
      }
      GatherWhole(iov[1..], q.bufs[1..]);
    }
  }

  /** So its first 64 entries, or all if there are fewer, gather the message. */
  lemma MessageGathers(iov: seq<Iovec>, q: Queue)
    requires q.Valid() && Mirrors(iov, q)
    ensures q.MessageLength() <= 64 && (q.MessageLength() == 64 || q.MessageLength() == |iov|)
    ensures forall k :: 0 <= k < q.MessageLength() ==> iov[k].Fits()
    ensures Gather(iov[..q.MessageLength()]) == q.Message()
  {
    var n := q.MessageLength();
    var front := Queue(q.bufs[..n], q.first);
    assert Mirrors(iov[..n], front) by {
      forall k | 0 <= k < n ensures iov[..n][k] == EntryFor(front, k) {
        assert iov[k] == EntryFor(q, k);
      }
    }
    MirrorGathers(iov[..n], front);
    assert forall k :: 0 <= k < n ==> iov[..n][k] == iov[k];
  }

  lemma {:induction false} ConcatAppend(a: seq<seq<Byte>>, b: seq<seq<Byte>>)
    ensures Concat(a + b) == Concat(a) + Concat(b)
    decreases |a|
  {
    if a == [] {
      assert a + b == b;
    } else {
      assert (a + b)[1..] == a[1..] + b;
      ConcatAppend(a[1..], b);
      Assoc(a[0], Concat(a[1..]), Concat(b));
    }
  }

  /** The message is always the front of the pending stream. */
  lemma MessageIsFront(q: Queue)
    requires q.Valid()
    ensures q.Message() <= q.Stream()
  {
    if q.bufs != [] {
      var n := q.MessageLength();
      var a, b := q.bufs[..n][1..], q.bufs[n..];
      assert q.bufs[1..] == a + b;
      ConcatAppend(a, b);
      Assoc(q.bufs[0][q.first..], Concat(a), Concat(b));
    }
  }

  lemma AppendExtendsStream(q: Queue, more: seq<seq<Byte>>)
    requires q.Valid()
    ensures Queue(q.bufs + more, q.first).Valid()
    ensures Queue(q.bufs + more, q.first).Stream() == q.Stream() + Concat(more)
  {
    if q.bufs == [] {
      assert q.bufs + more == more;
      if more != [] {
        assert more[0][0..] == more[0];
      }
    } else {
      assert (q.bufs + more)[1..] == q.bufs[1..] + more;
      ConcatAppend(q.bufs[1..], more);
      Assoc(q.bufs[0][q.first..], Concat(q.bufs[1..]), Concat(more));
    }
  }

  // ----- partial sends -----

  /** Remove `left` bytes from untouched buffers. */
  function AfterWhole(bufs: seq<seq<Byte>>, left: nat): (q: Queue)
    ensures q.Valid()
    decreases |bufs|
  {
    if bufs == [] then Queue([], 0)
    else if |bufs[0]| <= left then AfterWhole(bufs[1..], left - |bufs[0]|)
    else Queue(bufs, left)
  }

  /** reconfigure_write_bufs_: a head that stays keeps `sent` as its position, whatever part of it
      had gone before. */
  function AfterSend(q: Queue, sent: nat): (r: Queue)
    requires q.Valid() && (sent > 0 ==> q.bufs != [])
    ensures r.Valid()
  {
    if sent == 0 then q
    else if |q.bufs[0]| - q.first <= sent
    then AfterWhole(q.bufs[1..], sent - (|q.bufs[0]| - q.first))
    else Queue(q.bufs, sent)
  }

  lemma {:induction false} WholeRemoves(bufs: seq<seq<Byte>>, left: nat)
    requires left <= |Concat(bufs)|
    ensures AfterWhole(bufs, left).Stream() == Concat(bufs)[left..]
    decreases |bufs|
  {
    if bufs != [] {
      if |bufs[0]| <= left {
        WholeRemoves(bufs[1..], left - |bufs[0]|);
        assert Concat(bufs)[left..] == Concat(bufs[1..])[left - |bufs[0]|..];
      } else {
        assert Concat(bufs)[left..] == bufs[0][left..] + Concat(bufs[1..]);
      }
    }
  }

  /** The head is untouched, or this send completes it. */
  predicate Clean(q: Queue, sent: nat)
    requires q.Valid() && q.bufs != []
  {
    q.first == 0 || |q.bufs[0]| - q.first <= sent
  }

  lemma DropBeyond<T>(a: seq<T>, b: seq<T>, n: nat)
    requires |a| <= n <= |a| + |b|
    ensures (a + b)[n..] == b[n - |a|..]
  {
  }

  lemma CompletingSend(q: Queue, sent: nat)
    requires q.Valid() && 0 < sent <= |q.Stream()| && |q.bufs[0]| - q.first <= sent
    ensures AfterSend(q, sent).Stream() == q.Stream()[sent..]
  {
    var head, rest := q.bufs[0][q.first..], q.bufs[1..];
    WholeRemoves(rest, sent - |head|);
    DropBeyond(head, Concat(rest), sent);
  }

  lemma PartialSend(q: Queue, sent: nat)
    requires q.Valid() && 0 < sent && q.bufs != [] && sent < |q.bufs[0]| - q.first
    ensures AfterSend(q, sent).Stream() == q.bufs[0][sent..] + Concat(q.bufs[1..])
    ensures q.Stream()[sent..] == q.bufs[0][q.first + sent..] + Concat(q.bufs[1..])
  {
  }

  /** A send removes exactly the sent bytes from the front of the pending stream if and only if the
      head was untouched or is completed by this send. */
  lemma SendRemovesSent(q: Queue, sent: nat)
    requires q.Valid() && 0 < sent <= |q.Stream()|
    ensures AfterSend(q, sent).Stream() == q.Stream()[sent..] <==> Clean(q, sent)
  {
    if |q.bufs[0]| - q.first <= sent {
      CompletingSend(q, sent);
    } else {
      PartialSend(q, sent);
      if q.first > 0 {
        assert |AfterSend(q, sent).Stream()| != |q.Stream()[sent..]|;
      }
    }
  }

  /** What an unclean send leaves is longer by the part of the head that had gone before. */
  lemma SendLength(q: Queue, sent: nat)
    requires q.Valid() && 0 < sent <= |q.Stream()|
    ensures |AfterSend(q, sent).Stream()| == |q.Stream()| - sent + if Clean(q, sent) then 0 else q.first
  {
    if Clean(q, sent) {
      SendRemovesSent(q, sent);
    } else {
      PartialSend(q, sent);
    }
  }

  /** A list of successful sendmsg results: each takes some of the message it is offered. */
  predicate Sendable(q: Queue, sends: seq<nat>)
    requires q.Valid()
    decreases |sends|
  {
    sends == [] ||
    (q.bufs != [] && 0 < sends[0] <= |q.Message()| && Sendable(AfterSend(q, sends[0]), sends[1..]))
  }

  function AfterSends(q: Queue, sends: seq<nat>): (r: Queue)
    requires q.Valid() && Sendable(q, sends)
    ensures r.Valid()
    decreases |sends|
  {
    if sends == [] then q else AfterSends(AfterSend(q, sends[0]), sends[1..])
  }

  /** The bytes the kernel takes over such a list. */
  function Wire(q: Queue, sends: seq<nat>): seq<Byte>
    requires q.Valid() && Sendable(q, sends)
    decreases |sends|
  {
    if sends == [] then [] else q.Message()[..sends[0]] + Wire(AfterSend(q, sends[0]), sends[1..])
  }

  predicate CleanSends(q: Queue, sends: seq<nat>)
    requires q.Valid() && Sendable(q, sends)
    decreases |sends|
  {
    sends == [] || (Clean(q, sends[0]) && CleanSends(AfterSend(q, sends[0]), sends[1..]))
  }

  lemma {:induction false} CleanSendsConserve(q: Queue, sends: seq<nat>)
    requires q.Valid() && Sendable(q, sends) && CleanSends(q, sends)
    ensures Wire(q, sends) + AfterSends(q, sends).Stream() == q.Stream()
    decreases |sends|
  {
    if sends == [] {
      assert [] + q.Stream() == q.Stream();
    } else {
      var sent, next := sends[0], AfterSend(q, sends[0]);
      MessageIsFront(q);
      SendRemovesSent(q, sent);
      CleanSendsConserve(next, sends[1..]);
      SplitFront(q.Stream(), q.Message(), sent,
                 Wire(next, sends[1..]), AfterSends(next, sends[1..]).Stream());
    }
  }

  /** Sends never lose bytes, and make some too many as soon as one of them is unclean. */
  lemma {:induction false} SendsNeverLose(q: Queue, sends: seq<nat>)
    requires q.Valid() && Sendable(q, sends)
    ensures |q.Stream()| <= |Wire(q, sends)| + |AfterSends(q, sends).Stream()|
    ensures !CleanSends(q, sends) ==> |q.Stream()| < |Wire(q, sends)| + |AfterSends(q, sends).Stream()|
    decreases |sends|
  {
    if sends != [] {
      MessageIsFront(q);
      SendLength(q, sends[0]);
      SendsNeverLose(AfterSend(q, sends[0]), sends[1..]);
    }
  }

  /** Over any number of sends nothing is lost, repeated or reordered if and only if each of them
      finds its head untouched or completes it. */
  lemma SendsConserve(q: Queue, sends: seq<nat>)
    requires q.Valid() && Sendable(q, sends)
    ensures Wire(q, sends) + AfterSends(q, sends).Stream() == q.Stream() <==> CleanSends(q, sends)
  {
    if CleanSends(q, sends) {
      CleanSendsConserve(q, sends);
    } else {
      SendsNeverLose(q, sends);
    }
  }

  lemma SplitFront<T>(s: seq<T>, m: seq<T>, n: nat, a: seq<T>, b: seq<T>)
    requires m <= s && n <= |m| && a + b == s[n..]
    ensures m[..n] + a + b == s
  {
  }
}
