/**
 nbd/server/proto_transmit.go: the transmission phase of the NBD protocol. Handlers of read
 requests share one output stream under a mutex that is held for a whole reply. The wire format
 is the one of the sections "Request message" and "Simple reply message" of the NBD protocol
 document.
 */
module Transmit {
  import opened Bytes

  const REQUEST_MAGIC := 0x25609513
  const REPLY_MAGIC := 0x67446698
  const CMD_READ := 0
  const CMD_DISC := 2
  const EIO := 5
  const EINVAL := 22
  const ENOTSUP := 95
  const BUFFER := 0x1_0000
  const FAILURE_THRESHOLD := 30
  const HEADER_LENGTH := 16
  const BOGUS: seq<byte> := [
    0xee, 0xe0, 0xe1, 0xe2, 0xe3, 0xe4, 0xe5, 0xe6, 0xe7, 0xe8, 0xe9, 0xea, 0xeb, 0xec, 0xed, 0xee]

  // ----- One read request -----

  /** Conversion to int64 and its wrap-around. */
  function Signed(x: int): (y: int)
    ensures -0x8000_0000_0000_0000 <= y < 0x8000_0000_0000_0000
  {
    (x + 0x8000_0000_0000_0000) % 0x1_0000_0000_0000_0000 - 0x8000_0000_0000_0000
  }

  /** What the backend reports for one ReadAt: the number of bytes read and whether there was an error. */
  datatype Answer = Answer(n: nat, err: bool)

  /**
   What the loop needs of an answer: an empty one comes with an error. The contract of io.ReaderAt
   asks the same of every answer shorter than the buffer.
   */
  predicate Honest(a: Answer, length: nat) {
    a.n <= length && (a.n == 0 < length ==> a.err)
  }

  /** Variables of the read loop, and the data sent so far. `open` says that the reply header was sent. */
  datatype Loop = Loop(cur: int, end: int, open: bool, failures: nat, sent: seq<byte>)

  function Start(offset: nat, length: nat): Loop {
    Loop(Signed(offset), Signed(Signed(offset) + length), false, 0, [])
  }

  /** What is left, a buffer at most. */
  function Portion(at: int, end: int): nat {
    if end <= at then 0 else Min(BUFFER, end - at)
  }

  function BufferLength(l: Loop): nat {
    Portion(l.cur, l.end)
  }

  function Device(content: int -> byte, at: int, n: nat): (s: seq<byte>)
    ensures |s| == n
  {
    seq(n, i => content(at + i))
  }

  function Filler(n: nat): (s: seq<byte>)
    ensures |s| == n
  {
    if n <= |BOGUS| then BOGUS[..n] else BOGUS + Filler(n - |BOGUS|)
  }

  datatype Reaction = Refuse | Emit(next: Loop, block: seq<byte>)

  /** The rows of the truth table: refuse the request, or send a block of data that may be empty. */
  function React(content: int -> byte, l: Loop, a: Answer): Reaction {
    if a.err && !l.open && a.n == 0 then Refuse else
    var failures := if !a.err then 0 else if l.open && a.n == 0 then l.failures + 1 else l.failures;
    var l' := l.(failures := failures);
    if a.err && l.open && a.n == 0 && failures > FAILURE_THRESHOLD then Emit(l', Filler(BufferLength(l)))
    else Emit(l', Device(content, l.cur, a.n))
  }

  /** The loop after a block was sent. */
  function Advance(l: Loop, block: seq<byte>): Loop {
    l.(cur := l.cur + |block|, open := l.open || block != [], sent := l.sent + block)
  }

  /** Empty failing reads since the last error-free read. */
  function EmptyFailures(trace: seq<Answer>): nat {
    if trace == [] then 0 else
    var a := trace[|trace| - 1];
    if !a.err then 0 else EmptyFailures(trace[..|trace| - 1]) + if a.n == 0 then 1 else 0
  }

  /** A block is what the backend delivered at its place, or filler for the whole of it after too many failures. */
  predicate BlockExplained(content: int -> byte, at: int, end: int, trace: seq<Answer>, block: seq<byte>)
    requires trace != []
  {
    var a := trace[|trace| - 1];
    block == if a == Answer(0, true) && EmptyFailures(trace) > FAILURE_THRESHOLD then Filler(Portion(at, end))
             else Device(content, at, a.n)
  }

  /** The blocks, from start to end, are those that the answers call for. */
  ghost predicate Explained(content: int -> byte, start: int, end: int, trace: seq<Answer>, blocks: seq<seq<byte>>) {
    && |blocks| == |trace|
    && forall i :: 0 <= i < |trace| ==>
         BlockExplained(content, start + |Flatten(blocks[..i])|, end, trace[..i + 1], blocks[i])
  }

  /** The answers are those of the backend, asked each time for what was left, a buffer at most. */
  ghost predicate Asked(backend: (nat, nat) -> Answer, length: nat, trace: seq<Answer>, blocks: seq<seq<byte>>) {
    && |blocks| == |trace|
    && forall i :: 0 <= i < |trace| ==>
         |Flatten(blocks[..i])| <= length && trace[i] == backend(i, Min(BUFFER, length - |Flatten(blocks[..i])|))
  }

  ghost predicate HonestBackend(backend: (nat, nat) -> Answer) {
    forall call: nat, length: nat :: Honest(backend(call, length), length)
  }

  datatype Outcome = Silent | Refused | Data(bytes: seq<byte>)

  /** Whether the loop runs at all: the length is not zero and the end does not overflow. */
  predicate Answerable(offset: nat, length: nat) {
    length > 0 && !(offset < 0x8000_0000_0000_0000 <= offset + length)
  }

  lemma AnswerableRuns(offset: nat, length: nat)
    requires offset < 0x1_0000_0000_0000_0000 && length < 0x1_0000_0000
    ensures Answerable(offset, length) <==> Start(offset, length).cur < Start(offset, length).end
    ensures Answerable(offset, length) ==> Start(offset, length).end == Start(offset, length).cur + length
  {
  }

  lemma FillerGoesOn(n: nat)
    ensures
      var step := Min(|BOGUS|, n);
      Filler(n) == BOGUS[..step] + Filler(n - step)
  {
    assert BOGUS[..|BOGUS|] == BOGUS;
    assert Filler(0) == [];
  }

  /** The loop that fills a block with bogus data. */
  method FillBogus(length: nat) returns (buf: seq<byte>)
    ensures buf == Filler(length)
  {
    hide Filler;
    buf := [];
    while |buf| < length
      invariant |buf| <= length
      invariant Filler(length) == buf + Filler(length - |buf|)
    {
      FillerGoesOn(length - |buf|);
      buf := buf + BOGUS[..Min(|BOGUS|, length - |buf|)];
    }
  }

  /**
   The read loop. It terminates, and it answers with one error and no data, or with exactly the
   requested number of bytes; every byte is the backend's unless its block was filled after at
   least 31 empty failing reads since the last error-free one. Requests of length zero and
   requests whose end overflows are not answered.
   */
  method ReadLoop(content: int -> byte, backend: (nat, nat) -> Answer, offset: nat, length: nat)
    returns (outcome: Outcome, trace: seq<Answer>, blocks: seq<seq<byte>>)
    requires offset < 0x1_0000_0000_0000_0000 && length < 0x1_0000_0000
    requires HonestBackend(backend)
    ensures outcome == Silent <==> !Answerable(offset, length)
    ensures outcome == Refused <==> Answerable(offset, length) && backend(0, Min(BUFFER, length)) == Answer(0, true)
    ensures outcome == Refused ==> trace == [Answer(0, true)] && blocks == []
    ensures outcome.Data? ==>
              && |outcome.bytes| == length && outcome.bytes == Flatten(blocks)
              && Asked(backend, length, trace, blocks) && Explained(content, Signed(offset), Signed(offset) + length, trace, blocks)
  {
    AnswerableRuns(offset, length);
    var l := Start(offset, length);
    ghost var start := l.cur;
    trace, blocks := [], [];
    var calls: nat := 0;
    if l.cur >= l.end {
      return Silent, trace, blocks;
    }
    assert UnderWay(content, backend, start, length, l, trace, blocks);
    hide UnderWay, Start, Signed, Answerable;
    while l.cur < l.end
      invariant UnderWay(content, backend, start, length, l, trace, blocks) && calls == |trace|
      decreases l.end - l.cur, if l.failures > FAILURE_THRESHOLD then 0 else FAILURE_THRESHOLD + 1 - l.failures
    {
      var size := BufferLength(l);
      var a := backend(calls, size);
      assert Honest(a, size);
      hide BufferLength, React, HonestBackend;
      RoundGoesOn(content, backend, start, length, l, trace, blocks, a);
      calls := calls + 1;
      var r := Respond(content, l, a);
      if r.Refuse? {
        return Refused, trace + [a], [];
      }
      trace, blocks := trace + [a], blocks + [r.block];
      l := Advance(r.next, r.block);
    }
    AllSent(content, backend, start, length, l, trace, blocks);
    return Data(l.sent), trace, blocks;
  }

  /** The loop after some rounds: what was sent is what the backend's answers called for. */
  ghost predicate UnderWay(content: int -> byte, backend: (nat, nat) -> Answer, start: int, length: nat,
                           l: Loop, trace: seq<Answer>, blocks: seq<seq<byte>>)
  {
    && l.end == start + length && l.cur == start + |l.sent| <= l.end
    && l.sent == Flatten(blocks) && l.failures == EmptyFailures(trace)
    && (l.open <==> l.sent != []) && (!l.open ==> trace == [] && blocks == [])
    && Explained(content, start, l.end, trace, blocks) && Asked(backend, length, trace, blocks)
    && (l.open ==> backend(0, Min(BUFFER, length)) != Answer(0, true))
  }

  lemma RoundGoesOn(content: int -> byte, backend: (nat, nat) -> Answer, start: int, length: nat,
                    l: Loop, trace: seq<Answer>, blocks: seq<seq<byte>>, a: Answer)
    requires UnderWay(content, backend, start, length, l, trace, blocks) && l.cur < l.end
    requires a == backend(|trace|, BufferLength(l)) && Honest(a, BufferLength(l))
    ensures
      var r := React(content, l, a);
      if r.Refuse? then trace == [] && a == Answer(0, true) == backend(0, Min(BUFFER, length))
      else
        var next := Advance(r.next, r.block);
        && UnderWay(content, backend, start, length, next, trace + [a], blocks + [r.block])
        && next.end == l.end && l.cur <= next.cur
        && (next.cur == l.cur ==> l.failures < next.failures <= FAILURE_THRESHOLD)
  {
    assert !l.open ==> l.failures == 0 by { NoFailures(); }
    BufferIs(l, length);
    ReactExplains(content, l, trace, a);
    hide React, BufferLength, BlockExplained, EmptyFailures, Flatten, Explained, Asked;
    var r := React(content, l, a);
    if r.Emit? {
      FlattenSnoc(blocks, r.block);
      ExplainedSnoc(content, start, l.end, trace, blocks, a, r.block);
      AskedSnoc(backend, length, trace, blocks, a, r.block);
    }
  }

  lemma AllSent(content: int -> byte, backend: (nat, nat) -> Answer, start: int, length: nat,
                l: Loop, trace: seq<Answer>, blocks: seq<seq<byte>>)
    requires UnderWay(content, backend, start, length, l, trace, blocks) && l.cur >= l.end && length > 0
    ensures |l.sent| == length && l.sent == Flatten(blocks) && backend(0, Min(BUFFER, length)) != Answer(0, true)
    ensures Asked(backend, length, trace, blocks) && Explained(content, start, start + length, trace, blocks)
  {
    hide Explained, Asked, Flatten, EmptyFailures;
  }

  lemma NoFailures()
    ensures EmptyFailures([]) == 0
  {
  }

  lemma BufferIs(l: Loop, length: nat)
    requires l.cur < l.end && l.end - l.cur == length - |l.sent|
    ensures BufferLength(l) == Min(BUFFER, length - |l.sent|)
  {
  }

  /** The body of the loop up to the sending of data. */
  method Respond(content: int -> byte, l: Loop, a: Answer) returns (r: Reaction)
    ensures r == React(content, l, a)
  {
    var failures, block := l.failures, Device(content, l.cur, a.n);
    if !a.err {
      failures := 0;
    }
    if a.err && !l.open && a.n == 0 {
      return Refuse;
    }
    if a.err && l.open && a.n == 0 {
      failures := failures + 1;
      if failures > FAILURE_THRESHOLD {
        block := FillBogus(BufferLength(l));
      }
    }
    return Emit(l.(failures := failures), block);
  }

  /** An empty answer without an error leaves the loop where it is, so that only such answers keep it from ending. */
  lemma EmptyAnswerStalls(content: int -> byte, l: Loop)
    ensures
      var r := React(content, l, Answer(0, false));
      r.Emit? && Advance(r.next, r.block) == l.(failures := 0)
  {
    assert Device(content, l.cur, 0) == [] && l.sent + [] == l.sent;
  }

  /** Every round either refuses, makes progress, or brings the filling of a block closer. */
  lemma ReactExplains(content: int -> byte, l: Loop, trace: seq<Answer>, a: Answer)
    requires l.cur < l.end && Honest(a, BufferLength(l)) && l.failures == EmptyFailures(trace)
    requires !l.open ==> l.failures == 0
    ensures
      var r := React(content, l, a);
      && (r.Refuse? <==> a == Answer(0, true) && !l.open)
      && (r.Emit? ==>
            && r.next == l.(failures := EmptyFailures(trace + [a]))
            && BlockExplained(content, l.cur, l.end, trace + [a], r.block)
            && l.cur + |r.block| <= l.end
            && (r.block == [] ==> l.open && l.failures < r.next.failures <= FAILURE_THRESHOLD))
  {
    hide Filler, Device;
    assert (trace + [a])[..|trace|] == trace;
  }

  lemma AskedSnoc(backend: (nat, nat) -> Answer, length: nat, trace: seq<Answer>, blocks: seq<seq<byte>>,
                  a: Answer, block: seq<byte>)
    requires Asked(backend, length, trace, blocks) && |Flatten(blocks)| <= length
    requires a == backend(|trace|, Min(BUFFER, length - |Flatten(blocks)|))
    ensures Asked(backend, length, trace + [a], blocks + [block])
  {
    hide Flatten;
    var t, b := trace + [a], blocks + [block];
    forall i | 0 <= i < |t|
      ensures |Flatten(b[..i])| <= length && t[i] == backend(i, Min(BUFFER, length - |Flatten(b[..i])|))
    {
      if i < |trace| {
        assert b[..i] == blocks[..i] && t[i] == trace[i];
      } else {
        assert b[..i] == blocks;
      }
    }
  }

  lemma ExplainedSnoc(content: int -> byte, start: int, end: int, trace: seq<Answer>, blocks: seq<seq<byte>>,
                      a: Answer, block: seq<byte>)
    requires Explained(content, start, end, trace, blocks)
    requires BlockExplained(content, start + |Flatten(blocks)|, end, trace + [a], block)
    ensures Explained(content, start, end, trace + [a], blocks + [block])
  {
    hide BlockExplained, Flatten;
    var t, b := trace + [a], blocks + [block];
    forall i | 0 <= i < |t|
      ensures BlockExplained(content, start + |Flatten(b[..i])|, end, t[..i + 1], b[i])
    {
      if i < |trace| {
        assert i < |blocks| && b[i] == blocks[i];
        assert b[..i] == blocks[..i];
        assert t[..i + 1] == trace[..i + 1];
      } else {
        assert b[..i] == blocks && t[..i + 1] == t;
      }
    }
  }
}
