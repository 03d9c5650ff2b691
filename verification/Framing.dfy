/** Newline framing of a byte stream, and why it does not depend on how the stream is cut. */
module Framing {

  type Byte = x: int | 0 <= x < 256

  const NEWLINE: Byte := 10

  /** std::find for a newline from position `from` on: its first position, or the length. */
  function FindFrom(s: seq<Byte>, from: nat): (i: nat)
    requires from <= |s|
    ensures from <= i <= |s| && (i < |s| ==> s[i] == NEWLINE)
    decreases |s| - from
  {
    if from == |s| || s[from] == NEWLINE then from else FindFrom(s, from + 1)
  }

  function FindNewline(s: seq<Byte>): (i: nat)
    ensures i <= |s| && (i < |s| ==> s[i] == NEWLINE)
  {
    FindFrom(s, 0)
  }

  lemma {:induction false} FindsFirst(s: seq<Byte>, from: nat)
    requires from <= |s|
    ensures forall k :: from <= k < FindFrom(s, from) ==> s[k] != NEWLINE
    decreases |s| - from
  {
    if from < |s| && s[from] != NEWLINE {
      FindsFirst(s, from + 1);
    }
  }

  lemma FindFirst(s: seq<Byte>)
    ensures NEWLINE !in s[..FindNewline(s)]
  {
    FindsFirst(s, 0);
  }

  /** The newline-terminated lines of a stream, without their newlines, and what follows them. */
  function Lines(s: seq<Byte>): seq<seq<Byte>>
    decreases |s|
  {
    var i := FindNewline(s);
    if i == |s| then [] else [s[..i]] + Lines(s[i + 1..])
  }

  /** The bytes after the last newline. */
  function Rest(s: seq<Byte>): (r: seq<Byte>)
    ensures NEWLINE !in r && |r| <= |s|
  {
    if s == [] || s[|s| - 1] == NEWLINE then [] else Rest(s[..|s| - 1]) + [s[|s| - 1]]
  }

  lemma {:induction false} RestOfSuffix(a: seq<Byte>, b: seq<Byte>)
    requires a != [] && a[|a| - 1] == NEWLINE
    ensures Rest(a + b) == Rest(b)
    decreases |b|
  {
    if b == [] {
      assert a + b == a;
    } else {
      assert (a + b)[..|a + b| - 1] == a + b[..|b| - 1];
      RestOfSuffix(a, b[..|b| - 1]);
    }
  }

  lemma {:induction false} RestOfNewlineFree(s: seq<Byte>)
    requires NEWLINE !in s
    ensures Rest(s) == s
    decreases |s|
  {
    if s != [] {
      RestOfNewlineFree(s[..|s| - 1]);
    }
  }

  function Unlines(ls: seq<seq<Byte>>): seq<Byte> {
    if ls == [] then [] else ls[0] + [NEWLINE] + Unlines(ls[1..])
  }

  predicate NewlineFree(ls: seq<seq<Byte>>) {
    forall k :: 0 <= k < |ls| ==> NEWLINE !in ls[k]
  }

  function Concat(chunks: seq<seq<Byte>>): seq<Byte> {
    if chunks == [] then [] else chunks[0] + Concat(chunks[1..])
  }

  lemma FindIs(s: seq<Byte>, i: nat)
    requires i < |s| && s[i] == NEWLINE && forall k :: 0 <= k < i ==> s[k] != NEWLINE
    ensures FindNewline(s) == i
  {
    FindsFirst(s, 0);
  }

  lemma FindNone(s: seq<Byte>)
    requires NEWLINE !in s
    ensures FindNewline(s) == |s|
  {
  }

  lemma SplitAtNewline(s: seq<Byte>, i: nat)
    requires i < |s| && s[i] == NEWLINE
    ensures s == s[..i] + [NEWLINE] + s[i + 1..]
  {
  }

  lemma NewlineFreeStep(line: seq<Byte>, ls: seq<seq<Byte>>)
    requires NEWLINE !in line && NewlineFree(ls)
    ensures NewlineFree([line] + ls)
  {
  }

  lemma Assoc<T>(a: seq<T>, b: seq<T>, c: seq<T>)
    ensures a + (b + c) == (a + b) + c
  {
  }

  /** A stream without a newline is all rest. */
  lemma NoLine(s: seq<Byte>)
    requires NEWLINE !in s
    ensures FindNewline(s) == |s| && Lines(s) == [] && Rest(s) == s
  {
    FindNone(s);
    RestOfNewlineFree(s);
  }

  lemma FindsNothing(s: seq<Byte>)
    requires FindNewline(s) == |s|
    ensures NEWLINE !in s && Lines(s) == [] && Rest(s) == s
  {
    FindFirst(s);
    assert s[..|s|] == s;
    NoLine(s);
  }

  lemma Cut<T>(s: seq<T>, n: nat)
    requires n <= |s|
    ensures s == s[..n] + s[n..]
  {
  }

  lemma FirstLine(s: seq<Byte>)
    requires FindNewline(s) < |s|
    ensures Lines(s) == [s[..FindNewline(s)]] + Lines(s[FindNewline(s) + 1..])
  {
  }

  lemma RestAfterLine(s: seq<Byte>, i: nat)
    requires i < |s| && i == FindNewline(s)
    ensures Rest(s) == Rest(s[i + 1..])
  {
    Cut(s, i + 1);
    RestOfSuffix(s[..i + 1], s[i + 1..]);
  }

  lemma LinesStep(s: seq<Byte>, i: nat)
    requires i < |s| && i == FindNewline(s)
    ensures Lines(s) == [s[..i]] + Lines(s[i + 1..]) && Rest(s) == Rest(s[i + 1..])
  {
    FirstLine(s);
    RestAfterLine(s, i);
  }

  lemma LineInFront(line: seq<Byte>, more: seq<Byte>)
    requires NEWLINE !in line
    ensures Lines(line + [NEWLINE] + more) == [line] + Lines(more)
    ensures Rest(line + [NEWLINE] + more) == Rest(more)
  {
    var s := line + [NEWLINE] + more;
    FindIs(s, |line|);
    assert s[..|line|] == line && s[|line| + 1..] == more;
    LinesStep(s, |line|);
  }

  /** Lines and Rest are the only way to write a stream as newline-terminated newline-free pieces
      and a newline-free remainder. */
  lemma {:induction false} LinesAreUnique(ls: seq<seq<Byte>>, r: seq<Byte>)
    requires NEWLINE !in r && NewlineFree(ls)
    ensures Lines(Unlines(ls) + r) == ls && Rest(Unlines(ls) + r) == r
  {
    if ls == [] {
      assert Unlines(ls) + r == r;
      NoLine(r);
    } else {
      var line, more := ls[0], Unlines(ls[1..]) + r;
      Assoc(line + [NEWLINE], Unlines(ls[1..]), r);
      LineInFront(line, more);
      assert [line] + ls[1..] == ls;
      LinesAreUnique(ls[1..], r);
    }
  }

  lemma {:induction false} LinesAndRest(s: seq<Byte>)
    ensures Unlines(Lines(s)) + Rest(s) == s
    ensures NewlineFree(Lines(s))
    decreases |s|
  {
    var i := FindNewline(s);
    if i < |s| {
      LinesStep(s, i);
      var line, more := s[..i], s[i + 1..];
      LinesAndRest(more);
      JoinLine(line, Lines(more), Rest(more));
      FindFirst(s);
      NewlineFreeStep(line, Lines(more));
      SplitAtNewline(s, i);
    } else {
      NothingToAppendTo(s, []);
      assert Unlines([]) + s == s;
    }
  }

  lemma JoinLine(line: seq<Byte>, ls: seq<seq<Byte>>, r: seq<Byte>)
    ensures Unlines([line] + ls) + r == line + [NEWLINE] + (Unlines(ls) + r)
  {
  }

  lemma HeadOfAppend(a: seq<Byte>, b: seq<Byte>, i: nat)
    requires i < |a| && i == FindNewline(a)
    ensures FindNewline(a + b) == i
    ensures (a + b)[..i] == a[..i] && (a + b)[i + 1..] == a[i + 1..] + b
  {
    FindFirst(a);
    assert forall k :: 0 <= k < i ==> a[k] == a[..i][k];
    FindIs(a + b, i);
  }

  lemma NothingToAppendTo(a: seq<Byte>, b: seq<Byte>)
    requires FindNewline(a) == |a|
    ensures Lines(a) == [] && Rest(a) == a && [] + Lines(a + b) == Lines(a + b)
  {
    FindsNothing(a);
  }

  /** Bytes that arrive later complete the remainder and nothing else. */
  lemma {:induction false} LinesAppend(a: seq<Byte>, b: seq<Byte>)
    ensures Lines(a + b) == Lines(a) + Lines(Rest(a) + b)
    ensures Rest(a + b) == Rest(Rest(a) + b)
    decreases |a|
  {
    var i := FindNewline(a);
    if i < |a| {
      HeadOfAppend(a, b, i);
      LinesStep(a, i);
      LinesStep(a + b, i);
      LinesAppend(a[i + 1..], b);
      Assoc([a[..i]], Lines(a[i + 1..]), Lines(Rest(a) + b));
    } else {
      NothingToAppendTo(a, b);
    }
  }

  /** Delivering the lines of each chunk as it arrives, with the remainder carried over. */
  function Delivered(pending: seq<Byte>, chunks: seq<seq<Byte>>): seq<seq<Byte>>
    decreases |chunks|
  {
    if chunks == [] then []
    else Lines(pending + chunks[0]) + Delivered(Rest(pending + chunks[0]), chunks[1..])
  }

  function Carried(pending: seq<Byte>, chunks: seq<seq<Byte>>): seq<Byte>
    decreases |chunks|
  {
    if chunks == [] then pending else Carried(Rest(pending + chunks[0]), chunks[1..])
  }

  /** For every split of a stream into chunks, the delivered lines are the lines of the whole. */
  lemma {:induction false} ChunkingIsInvisible(pending: seq<Byte>, chunks: seq<seq<Byte>>)
    requires NEWLINE !in pending
    ensures Delivered(pending, chunks) == Lines(pending + Concat(chunks))
    ensures Carried(pending, chunks) == Rest(pending + Concat(chunks))
    decreases |chunks|
  {
    if chunks == [] {
      assert pending + [] == pending;
      NoLine(pending);
    } else {
      var joined, more := pending + chunks[0], Concat(chunks[1..]);
      Assoc(pending, chunks[0], more);
      LinesAppend(joined, more);
      ChunkingIsInvisible(Rest(joined), chunks[1..]);
    }
  }

  /** Several read() calls, each a list of reads: the lines they deliver. */
  function DeliveredByCalls(pending: seq<Byte>, calls: seq<seq<seq<Byte>>>): seq<seq<Byte>>
    decreases |calls|
  {
    if calls == [] then []
    else Delivered(pending, calls[0]) + DeliveredByCalls(Carried(pending, calls[0]), calls[1..])
  }

  function CarriedByCalls(pending: seq<Byte>, calls: seq<seq<seq<Byte>>>): seq<Byte>
    decreases |calls|
  {
    if calls == [] then pending else CarriedByCalls(Carried(pending, calls[0]), calls[1..])
  }

  function Received(calls: seq<seq<seq<Byte>>>): seq<Byte> {
    if calls == [] then [] else Concat(calls[0]) + Received(calls[1..])
  }

  /** Nor does the way the reads are spread over read() calls matter. */
  lemma {:induction false} CallsAreInvisible(pending: seq<Byte>, calls: seq<seq<seq<Byte>>>)
    requires NEWLINE !in pending
    ensures DeliveredByCalls(pending, calls) == Lines(pending + Received(calls))
    ensures CarriedByCalls(pending, calls) == Rest(pending + Received(calls))
    decreases |calls|
  {
    if calls == [] {
      assert pending + [] == pending;
      NoLine(pending);
    } else {
      ChunkingIsInvisible(pending, calls[0]);
      var joined, more := pending + Concat(calls[0]), Received(calls[1..]);
      Assoc(pending, Concat(calls[0]), more);
      LinesAppend(joined, more);
      CallsAreInvisible(Rest(joined), calls[1..]);
    }
  }
}
