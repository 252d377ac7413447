/**
 nbd/server/proto_transmit.go: the goroutines of one connection as a transition system. The main
 goroutine takes commands and rejects the ones it does not support; every read request runs in a
 goroutine of its own; all of them write to the connection under one mutex.
 */
module Session {
  import opened Bytes
  import opened Transmit

  datatype Command = Command(magic: nat, flag: nat, kind: nat, cookie: nat, offset: nat, length: nat)

  /** The field widths of a request on the wire. */
  predicate Sane(c: Command) {
    c.cookie < 0x1_0000_0000_0000_0000 && c.offset < 0x1_0000_0000_0000_0000 && c.length < 0x1_0000_0000
  }

  datatype Reply = Reply(cookie: nat, error: nat, data: seq<byte>)

  function Header(cookie: nat, error: nat): (h: seq<byte>)
    ensures |h| == HEADER_LENGTH
  {
    BigEndian(REPLY_MAGIC, 4) + BigEndian(error, 4) + BigEndian(cookie, 8)
  }

  function Wire(r: Reply): seq<byte> {
    Header(r.cookie, r.error) + r.data
  }

  /** Where the goroutine that serves a command stands. */
  datatype Phase =
    | Reading(l: Loop)                       // before the backend is asked, or before the return
    | WantStart(l: Loop, block: seq<byte>)   // waits for the mutex to begin a reply
    | HaveStart(l: Loop, block: seq<byte>)   // holds the mutex, header not sent
    | Sending(l: Loop, block: seq<byte>)     // header sent, about to send a block
    | WantError(code: nat)                   // waits for the mutex to send an error
    | HaveError(code: nat)
    | SentError(code: nat)                   // about to release the mutex
    | Ended

  /** `asked` lists what the backend answered to the goroutine. */
  datatype Job = Job(command: Command, phase: Phase, asked: seq<Answer>)

  datatype Main = Accepting | Busy | Left

  datatype Entry = Entry(job: nat, reply: Reply)

  /** `log` lists the replies completed so far, `broken` says that some send has failed. */
  datatype State = State(
    out: seq<byte>, lock: Option<nat>, jobs: seq<Job>, main: Main, log: seq<Entry>, broken: bool)

  datatype Action =
    | Receive(command: Command) | Resume | Leave
    | Ask(answer: Answer) | Lock | Send | Return | Fail(junk: seq<byte>)

  predicate Holds(p: Phase) {
    match p
    case Reading(l) => l.open
    case HaveStart(_, _) => true
    case Sending(_, _) => true
    case HaveError(_) => true
    case SentError(_) => true
    case _ => false
  }

  /** What the main goroutine does with a command; None means that it returns. */
  function Dispatch(c: Command): Option<Phase> {
    if c.magic != REQUEST_MAGIC then None
    else if c.flag != 0 then Some(WantError(EINVAL))
    else if c.kind == CMD_READ then Some(Reading(Start(c.offset, c.length)))
    else if c.kind == CMD_DISC then None
    else Some(WantError(ENOTSUP))
  }

  /** The last command is being rejected by the main goroutine itself. */
  predicate MainEnabled(s: State, a: Action) {
    match a
    case Receive(c) => s.main == Accepting && Sane(c)
    case Resume => s.main == Busy && s.jobs != [] && s.jobs[|s.jobs| - 1].phase.Ended?
    case Leave => s.main == Accepting || (s.main == Busy && s.jobs != [] && s.jobs[|s.jobs| - 1].phase.Ended?)
    case _ => false
  }

  function MainAct(s: State, a: Action): State {
    match a
    case Receive(c) =>
      (match Dispatch(c)
       case None => s.(main := Left)
       case Some(p) => s.(jobs := s.jobs + [Job(c, p, [])], main := if p.Reading? then Accepting else Busy))
    case Resume => s.(main := Accepting)
    case _ => s.(main := Left)
  }

  predicate Enabled(s: State, id: nat, a: Action)
    requires id < |s.jobs|
  {
    var p := s.jobs[id].phase;
    match a
    case Ask(answer) => p.Reading? && p.l.cur < p.l.end && Honest(answer, BufferLength(p.l))
    case Lock => (p.WantStart? || p.WantError?) && s.lock == None
    case Send => p.HaveStart? || p.Sending? || p.HaveError?
    case Return => (p.Reading? && p.l.cur >= p.l.end) || p.SentError?
    case Fail(_) => p.HaveStart? || p.Sending? || p.HaveError?
    case _ => false
  }

  /** The reply a goroutine has completed when it is about to return. */
  function Completed(j: Job): Option<Reply> {
    match j.phase
    case Reading(l) => if l.open then Some(Reply(j.command.cookie, 0, l.sent)) else None
    case SentError(code) => Some(Reply(j.command.cookie, code, []))
    case _ => None
  }

  function NextPhase(content: int -> byte, p: Phase, a: Action): Phase {
    match (p, a)
    case (Reading(l), Ask(answer)) =>
      (match React(content, l, answer)
       case Refuse => WantError(EIO)
       case Emit(l', block) => if !l.open && block != [] then WantStart(l', block) else Sending(l', block))
    case (WantStart(l, block), Lock) => HaveStart(l, block)
    case (WantError(code), Lock) => HaveError(code)
    case (HaveStart(l, block), Send) => Sending(l.(open := true), block)
    case (Sending(l, block), Send) => Reading(Advance(l, block))
    case (HaveError(code), Send) => SentError(code)
    case _ => Ended
  }

  function NextJob(content: int -> byte, j: Job, a: Action): Job {
    j.(phase := NextPhase(content, j.phase, a), asked := if a.Ask? then j.asked + [a.answer] else j.asked)
  }

  /** The bytes a send puts on the wire. */
  function Sent(j: Job): seq<byte> {
    match j.phase
    case HaveStart(_, _) => Header(j.command.cookie, 0)
    case Sending(_, block) => block
    case HaveError(code) => Header(j.command.cookie, code)
    case _ => []
  }

  function Act(content: int -> byte, s: State, id: nat, a: Action): State
    requires id < |s.jobs| && Enabled(s, id, a)
  {
    var j := s.jobs[id];
    var s' := s.(jobs := s.jobs[id := NextJob(content, j, a)]);
    match a
    case Lock => s'.(lock := Some(id))
    case Send => s'.(out := s.out + Sent(j))
    case Return =>
      s'.(lock := if Holds(j.phase) then None else s.lock,
          log := match Completed(j) { case Some(r) => s.log + [Entry(id, r)] case None => s.log })
    case Fail(junk) => s'.(lock := None, out := s.out + junk, broken := true)
    case _ => s'
  }

  ghost predicate Step(content: int -> byte, s: State, s': State) {
    || (exists a: Action :: MainEnabled(s, a) && s' == MainAct(s, a))
    || (exists id: nat, a: Action :: id < |s.jobs| && Enabled(s, id, a) && s' == Act(content, s, id, a))
  }

  const INITIAL := State([], None, [], Accepting, [], false)

  ghost predicate Run(content: int -> byte, states: seq<State>) {
    && states != [] && states[0] == INITIAL
    && (forall k :: 0 <= k < |states| - 1 ==> Step(content, states[k], states[k + 1]))
  }

  // ----- Invariant -----

  /** What a goroutine has written of a reply that is not finished. */
  function Partial(j: Job): seq<byte> {
    match j.phase
    case Reading(l) => if l.open then Header(j.command.cookie, 0) + l.sent else []
    case Sending(l, _) => Header(j.command.cookie, 0) + l.sent
    case SentError(code) => Header(j.command.cookie, code)
    case _ => []
  }

  function Wires(log: seq<Entry>): seq<byte> {
    if log == [] then [] else Wires(log[..|log| - 1]) + Wire(log[|log| - 1].reply)
  }

  predicate LoopOk(c: Command, l: Loop) {
    var start := Start(c.offset, c.length);
    && l.end == start.end && l.cur == start.cur + |l.sent|
    && (start.cur < start.end ==> l.cur <= l.end)
    && (!l.open ==> l.sent == [])
  }

  /** Phases of a read request keep their loop variables in order, other commands only carry an error. */
  predicate JobOk(j: Job) {
    var c := j.command;
    && Sane(c)
    && (match j.phase
        case Reading(l) => c.kind == CMD_READ && c.flag == 0 && LoopOk(c, l) && (l.open ==> Answerable(c.offset, c.length))
        case WantStart(l, block) =>
          c.kind == CMD_READ && c.flag == 0 && LoopOk(c, l) && !l.open && l.cur + |block| <= l.end && block != []
        case HaveStart(l, block) =>
          c.kind == CMD_READ && c.flag == 0 && LoopOk(c, l) && !l.open && l.cur + |block| <= l.end && block != []
        case Sending(l, block) =>
          c.kind == CMD_READ && c.flag == 0 && LoopOk(c, l) && l.open && l.cur + |block| <= l.end
          && Answerable(c.offset, c.length)
        case WantError(code) => ErrorOk(c, code)
        case HaveError(code) => ErrorOk(c, code)
        case SentError(code) => ErrorOk(c, code)
        case Ended => true)
  }

  predicate ErrorOk(c: Command, code: nat) {
    // NBD_EINVAL for flags, NBD_EIO for a failed read, NBD_ENOTSUP for anything else
    if c.flag != 0 then code == 22
    else if c.kind == 0 then code == 5 && Answerable(c.offset, c.length)
    else code == 95
  }

  /** Commands that must get a reply: all but reads whose loop does not run. */
  predicate Due(c: Command) {
    c.flag != 0 || c.kind != CMD_READ || Answerable(c.offset, c.length)
  }

  /** A reply that fits its command: an error without data, or all the data asked for. */
  predicate Fits(c: Command, r: Reply) {
    && r.cookie == c.cookie
    && (if r.error == 0 then c.flag == 0 && c.kind == CMD_READ && |r.data| == c.length
        else ErrorOk(c, r.error) && r.data == [])
  }

  ghost predicate LockOk(s: State) {
    && (forall id :: 0 <= id < |s.jobs| ==> (Holds(s.jobs[id].phase) <==> s.lock == Some(id)))
    && (s.lock.Some? ==> s.lock.value < |s.jobs|)
  }

  /** The stream consists of the completed replies and the unfinished one of the lock holder. */
  predicate StreamOk(s: State) {
    s.out == Wires(s.log) + (if s.lock.Some? && s.lock.value < |s.jobs| then Partial(s.jobs[s.lock.value]) else [])
  }

  ghost predicate Logged(s: State, id: nat) {
    exists k :: 0 <= k < |s.log| && s.log[k].job == id
  }

  ghost predicate LogOk(s: State) {
    && (forall k :: 0 <= k < |s.log| ==>
          s.log[k].job < |s.jobs| && s.jobs[s.log[k].job].phase.Ended?
          && Fits(s.jobs[s.log[k].job].command, s.log[k].reply))
    && (forall i, k :: 0 <= i < k < |s.log| ==> s.log[i].job != s.log[k].job)
    && (!s.broken ==> forall id :: 0 <= id < |s.jobs| && s.jobs[id].phase.Ended? ==>
          (Logged(s, id) <==> Due(s.jobs[id].command)))
  }

  ghost predicate Inv(s: State) {
    && (forall id :: 0 <= id < |s.jobs| ==> JobOk(s.jobs[id]))
    && LockOk(s)
    && (!s.broken ==> StreamOk(s))
    && LogOk(s)
  }

  lemma JobKept(content: int -> byte, s: State, id: nat, a: Action)
    requires id < |s.jobs| && Enabled(s, id, a) && JobOk(s.jobs[id])
    ensures JobOk(Act(content, s, id, a).jobs[id])
  {
    hide Start, Filler, Device, Answerable, EmptyFailures, BlockExplained;
    var j := s.jobs[id];
    AnswerableRuns(j.command.offset, j.command.length);
    if a.Ask? {
      ReactBounds(content, j.phase.l, a.answer);
    }
  }

  lemma ReactBounds(content: int -> byte, l: Loop, a: Answer)
    requires l.cur < l.end && Honest(a, BufferLength(l))
    ensures
      var r := React(content, l, a);
      if r.Refuse? then !l.open
      else r.next == l.(failures := r.next.failures) && l.cur + |r.block| <= l.end && (l.open || r.block != [])
  {
    hide Filler, Device;
  }

  lemma HoldsAfter(content: int -> byte, s: State, id: nat, a: Action)
    requires id < |s.jobs| && Enabled(s, id, a) && JobOk(s.jobs[id])
    ensures
      var p, p' := s.jobs[id].phase, NextPhase(content, s.jobs[id].phase, a);
      match a
      case Lock => !Holds(p) && Holds(p')
      case Return => p' == Ended
      case Fail(_) => Holds(p) && p' == Ended
      case _ => Holds(p') == Holds(p)
  {
    hide Start, React, LoopOk, Answerable, ErrorOk;
    if a.Ask? {
      ReactBounds(content, s.jobs[id].phase.l, a.answer);
    }
  }

  lemma LockKept(content: int -> byte, s: State, id: nat, a: Action)
    requires LockOk(s) && id < |s.jobs| && Enabled(s, id, a) && JobOk(s.jobs[id])
    ensures LockOk(Act(content, s, id, a))
  {
    HoldsAfter(content, s, id, a);
    hide JobOk, NextPhase, Sent, Completed;
    assert Holds(s.jobs[id].phase) <==> s.lock == Some(id);
    LockFree(s, id, a);
  }

  lemma LockFree(s: State, id: nat, a: Action)
    requires id < |s.jobs| && Enabled(s, id, a)
    ensures a.Lock? ==> s.lock == None
  {
  }

  lemma PartialGrows(content: int -> byte, s: State, id: nat, a: Action)
    requires id < |s.jobs| && Enabled(s, id, a) && JobOk(s.jobs[id])
    ensures
      var j := s.jobs[id];
      var j' := NextJob(content, j, a);
      match a
      case Ask(_) => Partial(j') == Partial(j)
      case Lock => Partial(j') == []
      case Send => Partial(j') == Partial(j) + Sent(j)
      case Return => Completed(j).Some? == Holds(j.phase) && (Completed(j).Some? ==> Wire(Completed(j).value) == Partial(j))
      case _ => true
  {
    hide Start, React, Answerable, ErrorOk, Header;
    if a.Ask? {
      ReactBounds(content, s.jobs[id].phase.l, a.answer);
    }
  }

  lemma StreamKept(content: int -> byte, s: State, id: nat, a: Action)
    requires LockOk(s) && StreamOk(s) && id < |s.jobs| && Enabled(s, id, a) && JobOk(s.jobs[id]) && !a.Fail?
    ensures StreamOk(Act(content, s, id, a))
  {
    PartialGrows(content, s, id, a);
    HoldsAfter(content, s, id, a);
    LockFree(s, id, a);
    SendHolds(s, id, a);
    NoPartial(s.jobs[id]);
    hide JobOk, NextPhase, Sent, Completed, Partial, Enabled, Wire, Wires, Holds;
    assert Holds(s.jobs[id].phase) <==> s.lock == Some(id);
    hide StreamOk, LockOk;
    var j, s' := s.jobs[id], Act(content, s, id, a);
    if a.Lock? {
      StreamOpens(s, s', id);
    } else if s.lock != Some(id) {
      StreamByOther(s, s', id);
    } else if a.Return? {
      StreamCloses(s, s', id, Entry(id, Completed(j).value));
    } else {
      StreamByHolder(s, s', id, if a.Send? then Sent(j) else []);
    }
  }

  lemma StreamByOther(s: State, s': State, id: nat)
    requires StreamOk(s) && id < |s.jobs| == |s'.jobs| && s.lock != Some(id)
    requires s'.lock == s.lock && s'.out == s.out && s'.log == s.log && s'.jobs == s.jobs[id := s'.jobs[id]]
    ensures StreamOk(s')
  {
    hide Wires, Partial;
  }

  lemma StreamOpens(s: State, s': State, id: nat)
    requires StreamOk(s) && id < |s'.jobs| && s.lock == None && s'.lock == Some(id)
    requires s'.out == s.out && s'.log == s.log && Partial(s'.jobs[id]) == []
    ensures StreamOk(s')
  {
    hide Wires, Partial;
  }

  lemma StreamByHolder(s: State, s': State, id: nat, more: seq<byte>)
    requires StreamOk(s) && id < |s.jobs| == |s'.jobs| && s.lock == Some(id) == s'.lock
    requires s'.out == s.out + more && s'.log == s.log && Partial(s'.jobs[id]) == Partial(s.jobs[id]) + more
    ensures StreamOk(s')
  {
    hide Wires, Partial;
  }

  lemma StreamCloses(s: State, s': State, id: nat, e: Entry)
    requires StreamOk(s) && id < |s.jobs| && s.lock == Some(id) && s'.lock == None
    requires s'.out == s.out && s'.log == s.log + [e] && Partial(s.jobs[id]) == Wire(e.reply)
    ensures StreamOk(s')
  {
    WiresSnoc(s.log, e);
    hide Wires, Partial, Wire;
  }

  lemma SendHolds(s: State, id: nat, a: Action)
    requires id < |s.jobs| && Enabled(s, id, a)
    ensures a.Send? ==> Holds(s.jobs[id].phase)
  {
  }

  lemma NoPartial(j: Job)
    ensures !Holds(j.phase) ==> Partial(j) == []
  {
  }

  lemma WiresSnoc(log: seq<Entry>, e: Entry)
    ensures Wires(log + [e]) == Wires(log) + Wire(e.reply)
  {
    assert (log + [e])[..|log|] == log;
  }

  /** At its return a goroutine has completed a reply exactly if one is due, and the reply fits. */
  lemma ReturnsFit(s: State, id: nat)
    requires id < |s.jobs| && Enabled(s, id, Return) && JobOk(s.jobs[id])
    ensures
      var j := s.jobs[id];
      && (Completed(j).Some? <==> Due(j.command))
      && (Completed(j).Some? ==> Fits(j.command, Completed(j).value))
  {
    hide Start, Answerable;
    var c := s.jobs[id].command;
    AnswerableRuns(c.offset, c.length);
  }

  /** A finished goroutine adds its reply to the log. */
  lemma LogGrows(s: State, s': State, id: nat, e: Entry)
    requires LogOk(s) && id < |s.jobs| && !s.jobs[id].phase.Ended?
    requires s'.jobs == s.jobs[id := s.jobs[id].(phase := Ended)] && s'.log == s.log + [e] && s'.broken == s.broken
    requires e.job == id && Fits(s.jobs[id].command, e.reply) && Due(s.jobs[id].command)
    ensures LogOk(s')
  {
    hide Fits, Due;
    assert s'.log[|s.log|] == e;
    assert Logged(s', id);
    forall x | 0 <= x < |s.jobs| && x != id
      ensures Logged(s', x) <==> Logged(s, x)
    {
      if Logged(s, x) {
        var k :| 0 <= k < |s.log| && s.log[k].job == x;
        assert s'.log[k].job == x;
      }
    }
  }

  /** Anything else leaves the log alone. */
  lemma LogStays(s: State, s': State, id: nat, j: Job)
    requires LogOk(s) && id < |s.jobs| && !s.jobs[id].phase.Ended? && j.command == s.jobs[id].command
    requires s'.jobs == s.jobs[id := j] && s'.log == s.log && (s.broken ==> s'.broken)
    requires j.phase.Ended? ==> s'.broken || !Due(s.jobs[id].command)
    ensures LogOk(s')
  {
    hide Fits, Due, Logged;
    forall x: nat ensures Logged(s', x) <==> Logged(s, x) {
      SameLog(s, s', x);
    }
    if Logged(s, id) {
      LoggedEnded(s, id);
    }
  }

  lemma LoggedEnded(s: State, id: nat)
    requires LogOk(s) && Logged(s, id)
    ensures id < |s.jobs| && s.jobs[id].phase.Ended?
  {
  }

  lemma LogKept(content: int -> byte, s: State, id: nat, a: Action)
    requires Inv(s) && id < |s.jobs| && Enabled(s, id, a)
    ensures LogOk(Act(content, s, id, a))
  {
    var s' := Act(content, s, id, a);
    var j := s.jobs[id];
    assert JobOk(j);
    Unfinished(content, s, id, a);
    if a.Return? {
      ReturnsFit(s, id);
    }
    hide JobOk, NextPhase, Sent, Completed, Enabled, Fits, Due, Holds, StreamOk, LockOk, LogOk;
    if a.Return? && Completed(j).Some? {
      LogGrows(s, s', id, Entry(id, Completed(j).value));
    } else {
      LogStays(s, s', id, NextJob(content, j, a));
    }
  }

  lemma Unfinished(content: int -> byte, s: State, id: nat, a: Action)
    requires id < |s.jobs| && Enabled(s, id, a)
    ensures !s.jobs[id].phase.Ended?
    ensures NextPhase(content, s.jobs[id].phase, a).Ended? <==> a.Return? || a.Fail?
  {
    hide React;
  }

  lemma ActKeepsInv(content: int -> byte, s: State, id: nat, a: Action)
    requires Inv(s) && id < |s.jobs| && Enabled(s, id, a)
    ensures Inv(Act(content, s, id, a))
  {
    JobKept(content, s, id, a);
    LockKept(content, s, id, a);
    LogKept(content, s, id, a);
    if !a.Fail? && !s.broken {
      StreamKept(content, s, id, a);
    }
    hide JobOk, LockOk, LogOk, StreamOk, NextPhase, Sent, Completed, Enabled, Holds;
  }

  lemma MainKeepsInv(s: State, a: Action)
    requires Inv(s) && MainEnabled(s, a)
    ensures Inv(MainAct(s, a))
  {
    hide Start, Fits, Due, Wires, Partial, ErrorOk, JobOk, Dispatch, Logged, Holds;
    var s' := MainAct(s, a);
    if a.Receive? {
      Dispatched(a.command);
    }
    assert s'.log == s.log && s'.out == s.out && s'.lock == s.lock;
    assert forall id: nat :: Logged(s', id) <==> Logged(s, id) by {
      hide *;
      forall id: nat ensures Logged(s', id) <==> Logged(s, id) {
        SameLog(s, s', id);
      }
    }
  }

  lemma SameLog(s: State, t: State, id: nat)
    requires s.log == t.log
    ensures Logged(s, id) <==> Logged(t, id)
  {
  }

  lemma Dispatched(c: Command)
    requires Sane(c)
    ensures
      Dispatch(c).Some? ==>
        var p := Dispatch(c).value;
        JobOk(Job(c, p, [])) && !Holds(p) && !p.Ended?
  {
    hide Signed;
  }

  lemma InitialInv()
    ensures Inv(INITIAL)
  {
  }

  /** Every state of every run is in order. */
  lemma {:induction false} RunsInOrder(content: int -> byte, states: seq<State>, k: nat)
    requires Run(content, states) && k < |states|
    ensures Inv(states[k])
    decreases k
  {
    hide Inv, Act, MainAct, Enabled, MainEnabled;
    if k == 0 {
      InitialInv();
    } else {
      RunsInOrder(content, states, k - 1);
      var s := states[k - 1];
      assert Step(content, states[k - 1], states[k - 1 + 1]);
      if a: Action :| MainEnabled(s, a) && states[k] == MainAct(s, a) {
        MainKeepsInv(s, a);
      } else {
        var id: nat, a: Action :| id < |s.jobs| && Enabled(s, id, a) && states[k] == Act(content, s, id, a);
        ActKeepsInv(content, s, id, a);
      }
    }
  }

  // ----- Consequences -----

  /**
   While no send has failed, the stream is the completed replies one after the other and at most
   one unfinished reply, which belongs to the holder of the mutex; a goroutine that asks for the
   mutex does not hold it already.
   */
  lemma StreamFraming(content: int -> byte, states: seq<State>, k: nat)
    requires Run(content, states) && k < |states| && !states[k].broken
    ensures
      var s := states[k];
      && (s.lock == None ==> s.out == Wires(s.log))
      && (s.lock.Some? ==> s.lock.value < |s.jobs| && s.out == Wires(s.log) + Partial(s.jobs[s.lock.value]))
      && (forall id :: 0 <= id < |s.jobs| && (s.jobs[id].phase.WantStart? || s.jobs[id].phase.WantError?) ==> s.lock != Some(id))
  {
    hide Run, Wires, Partial, LogOk, JobOk;
    RunsInOrder(content, states, k);
  }

  /**
   When every goroutine has returned and no send has failed, every command that is due a reply has
   been answered exactly once and no other has been answered; the replies fit their commands and
   make up the whole stream.
   */
  lemma AnsweredExactlyOnce(content: int -> byte, states: seq<State>, k: nat)
    requires Run(content, states) && k < |states| && !states[k].broken
    requires forall id :: 0 <= id < |states[k].jobs| ==> states[k].jobs[id].phase.Ended?
    ensures
      var s := states[k];
      && s.out == Wires(s.log)
      && (forall id :: 0 <= id < |s.jobs| ==> (Logged(s, id) <==> Due(s.jobs[id].command)))
      && (forall i, j :: 0 <= i < j < |s.log| ==> s.log[i].job != s.log[j].job)
      && (forall i :: 0 <= i < |s.log| ==>
            s.log[i].job < |s.jobs| && Fits(s.jobs[s.log[i].job].command, s.log[i].reply))
  {
    hide Run, Wires, Partial, JobOk, Fits, Due;
    RunsInOrder(content, states, k);
  }

  /** Some goroutine can always go on until all have returned: the mutex never deadlocks. */
  lemma SomeoneProceeds(content: int -> byte, states: seq<State>, k: nat, id: nat)
    requires Run(content, states) && k < |states| && id < |states[k].jobs| && !states[k].jobs[id].phase.Ended?
    ensures exists i: nat, a: Action :: i < |states[k].jobs| && Enabled(states[k], i, a)
  {
    hide Run, LogOk, StreamOk, JobOk;
    RunsInOrder(content, states, k);
    var s := states[k];
    var i := if s.lock.Some? then s.lock.value else id;
    var p := s.jobs[i].phase;
    assert Holds(p) <==> s.lock == Some(i);
    if p.Reading? && p.l.cur < p.l.end {
      assert Enabled(s, i, Ask(Answer(BufferLength(p.l), false)));
    } else if p.Reading? || p.SentError? {
      assert Enabled(s, i, Return);
    } else if p.WantStart? || p.WantError? {
      assert Enabled(s, i, Lock);
    } else {
      assert Enabled(s, i, Send);
    }
  }

  // ----- Which commands are served -----

  /** Requests have their magic number, and a disconnect, command 2 without flags, is no request for a reply. */
  predicate Served(c: Command) {
    c.magic == 0x25609513 && (c.flag != 0 || c.kind != 2)
  }

  /** A served command gets a goroutine or a rejection of its own; any other ends the connection without a word. */
  lemma ReceivesExactly(s: State, c: Command)
    requires MainEnabled(s, Receive(c))
    ensures
      var s' := MainAct(s, Receive(c));
      && s'.out == s.out && s'.log == s.log && s'.lock == s.lock
      && (if Served(c)
          then |s'.jobs| == |s.jobs| + 1 && s'.jobs[..|s.jobs|] == s.jobs && s'.jobs[|s.jobs|].command == c
               && s'.jobs[|s.jobs|].asked == [] && !s'.jobs[|s.jobs|].phase.Ended? && s'.main != Left
          else s'.jobs == s.jobs && s'.main == Left)
  {
    hide Start;
  }

  /** From one state to the next commands keep their places, and only served ones are added. */
  ghost predicate KeepsCommands(s: State, s': State) {
    && |s.jobs| <= |s'.jobs| && (forall i :: 0 <= i < |s.jobs| ==> s'.jobs[i].command == s.jobs[i].command)
    && (s.main == Left ==> s'.main == Left && |s'.jobs| == |s.jobs|)
    && (|s.jobs| < |s'.jobs| ==> |s'.jobs| == |s.jobs| + 1 && Served(s'.jobs[|s.jobs|].command))
  }

  lemma MainKeepsCommands(s: State, a: Action)
    requires MainEnabled(s, a)
    ensures KeepsCommands(s, MainAct(s, a))
  {
    if a.Receive? {
      ReceivesExactly(s, a.command);
      hide Dispatch, Served, MainAct;
      var s' := MainAct(s, a);
      assert forall i :: 0 <= i < |s.jobs| ==> s'.jobs[..|s.jobs|][i] == s'.jobs[i] || !Served(a.command);
    }
  }

  lemma ActKeepsCommands(content: int -> byte, s: State, id: nat, a: Action)
    requires id < |s.jobs| && Enabled(s, id, a)
    ensures KeepsCommands(s, Act(content, s, id, a))
  {
    hide Enabled, NextPhase, Sent, Completed, Holds, Served;
  }

  lemma StepKeepsCommands(content: int -> byte, s: State, s': State)
    requires Step(content, s, s')
    ensures KeepsCommands(s, s')
  {
    hide Enabled, MainEnabled, Act, MainAct, KeepsCommands;
    if a: Action :| MainEnabled(s, a) && s' == MainAct(s, a) {
      MainKeepsCommands(s, a);
    } else {
      var id: nat, a: Action :| id < |s.jobs| && Enabled(s, id, a) && s' == Act(content, s, id, a);
      ActKeepsCommands(content, s, id, a);
    }
  }

  /** In every run all commands taken up are served ones. */
  lemma {:induction false} ServedOnly(content: int -> byte, states: seq<State>, k: nat)
    requires Run(content, states) && k < |states|
    ensures forall id :: 0 <= id < |states[k].jobs| ==> Served(states[k].jobs[id].command)
    decreases k
  {
    hide Step, Served;
    if k > 0 {
      ServedOnly(content, states, k - 1);
      assert Step(content, states[k - 1], states[k - 1 + 1]);
      StepKeepsCommands(content, states[k - 1], states[k]);
    }
  }

  /** So no reply answers a disconnect without flags or a request without the magic number. */
  lemma RepliesServed(content: int -> byte, states: seq<State>, k: nat, i: nat)
    requires Run(content, states) && k < |states| && i < |states[k].log|
    ensures states[k].log[i].job < |states[k].jobs| && Served(states[k].jobs[states[k].log[i].job].command)
  {
    ServedOnly(content, states, k);
    RunsInOrder(content, states, k);
    hide Run, Served, JobOk, LockOk, StreamOk, Fits, Due;
  }

  /** After the main goroutine has left no command is taken up any more. */
  lemma {:induction false} NothingAfterLeaving(content: int -> byte, states: seq<State>, k: nat, m: nat)
    requires Run(content, states) && k <= m < |states| && states[k].main == Left
    ensures states[m].main == Left && |states[m].jobs| == |states[k].jobs|
    decreases m
  {
    hide Step;
    if k < m {
      NothingAfterLeaving(content, states, k, m - 1);
      assert Step(content, states[m - 1], states[m - 1 + 1]);
      StepKeepsCommands(content, states[m - 1], states[m]);
    }
  }

  // ----- Where the data comes from -----

  /** The blocks are the ones that the answers call for, for the bytes the command asks for. */
  ghost predicate CalledFor(content: int -> byte, c: Command, asked: seq<Answer>, blocks: seq<seq<byte>>) {
    Explained(content, Signed(c.offset), Start(c.offset, c.length).end, asked, blocks)
  }

  /** The bytes sent so far, and the block that is about to be sent, are what the backend's answers call for. */
  ghost predicate Backed(content: int -> byte, j: Job, l: Loop, pending: seq<seq<byte>>) {
    exists blocks: seq<seq<byte>> :: BackedBy(content, j, l, pending, blocks)
  }

  ghost predicate BackedBy(content: int -> byte, j: Job, l: Loop, pending: seq<seq<byte>>, blocks: seq<seq<byte>>) {
    && l.sent == Flatten(blocks) && CalledFor(content, j.command, j.asked, blocks + pending)
    && (pending == [] ==> l.failures == EmptyFailures(j.asked) && (!l.open ==> j.asked == []))
  }

  /** Before the next question the failures are counted, and without an open reply there are none. */
  ghost predicate JobBacked(content: int -> byte, j: Job) {
    match j.phase
    case Reading(l) => Backed(content, j, l, [])
    case WantStart(l, block) => Backed(content, j, l, [block]) && l.failures == EmptyFailures(j.asked)
    case HaveStart(l, block) => Backed(content, j, l, [block]) && l.failures == EmptyFailures(j.asked)
    case Sending(l, block) => Backed(content, j, l, [block]) && l.failures == EmptyFailures(j.asked)
    case _ => true
  }

  /** The data is, block by block, what the answers of the backend to this goroutine call for. */
  ghost predicate DataBacked(content: int -> byte, j: Job, data: seq<byte>) {
    exists blocks: seq<seq<byte>> :: data == Flatten(blocks) && CalledFor(content, j.command, j.asked, blocks)
  }

  ghost predicate AllBacked(content: int -> byte, s: State) {
    && (forall id :: 0 <= id < |s.jobs| ==> JobBacked(content, s.jobs[id]))
    && (forall k :: 0 <= k < |s.log| && s.log[k].reply.error == 0 ==>
          s.log[k].job < |s.jobs| && DataBacked(content, s.jobs[s.log[k].job], s.log[k].reply.data))
  }

  lemma StartBacked(content: int -> byte, c: Command)
    ensures JobBacked(content, Job(c, Reading(Start(c.offset, c.length)), []))
  {
    var l, blocks: seq<seq<byte>> := Start(c.offset, c.length), [];
    assert blocks + [] == blocks;
    assert BackedBy(content, Job(c, Reading(l), []), l, [], blocks);
  }

  lemma AskBacked(content: int -> byte, j: Job, l: Loop, a: Answer)
    requires j.phase == Reading(l) && JobBacked(content, j)
    requires l.cur == Signed(j.command.offset) + |l.sent| && l.end == Start(j.command.offset, j.command.length).end
    requires l.cur < l.end && Honest(a, BufferLength(l)) && React(content, l, a).Emit?
    ensures
      var r, asked := React(content, l, a), j.asked + [a];
      && r.next.failures == EmptyFailures(asked)
      && forall p :: Backed(content, Job(j.command, p, asked), r.next, [r.block])
  {
    var blocks :| BackedBy(content, j, l, [], blocks);
    assert blocks + [] == blocks;
    assert !l.open ==> l.failures == 0;
    ReactExplains(content, l, j.asked, a);
    hide React, BlockExplained, Explained, EmptyFailures, Signed, BufferLength, Start, Flatten;
    var r := React(content, l, a);
    ExplainedSnoc(content, Signed(j.command.offset), l.end, j.asked, blocks, a, r.block);
    forall p
      ensures Backed(content, Job(j.command, p, j.asked + [a]), r.next, [r.block])
    {
      assert BackedBy(content, Job(j.command, p, j.asked + [a]), r.next, [r.block], blocks);
    }
  }

  lemma SendBacked(content: int -> byte, j: Job, l: Loop, block: seq<byte>)
    requires Backed(content, j, l, [block]) && l.failures == EmptyFailures(j.asked)
    ensures forall p :: Backed(content, j.(phase := p), l.(open := true), [block])
    ensures l.open ==> forall p :: Backed(content, j.(phase := p), Advance(l, block), [])
  {
    hide CalledFor, EmptyFailures;
    var blocks :| BackedBy(content, j, l, [block], blocks);
    FlattenSnoc(blocks, block);
    assert blocks + [block] + [] == blocks + [block];
    forall p
      ensures Backed(content, j.(phase := p), l.(open := true), [block])
      ensures l.open ==> Backed(content, j.(phase := p), Advance(l, block), [])
    {
      assert BackedBy(content, j.(phase := p), l.(open := true), [block], blocks);
      if l.open {
        assert BackedBy(content, j.(phase := p), Advance(l, block), [], blocks + [block]);
      }
    }
  }

  lemma SentBacked(content: int -> byte, j: Job, l: Loop)
    requires Backed(content, j, l, [])
    ensures forall p :: DataBacked(content, j.(phase := p), l.sent)
  {
    hide CalledFor, EmptyFailures;
    var blocks :| BackedBy(content, j, l, [], blocks);
    assert blocks + [] == blocks;
  }

  lemma LockBacked(content: int -> byte, j: Job, l: Loop, block: seq<byte>)
    requires Backed(content, j, l, [block])
    ensures forall p :: Backed(content, j.(phase := p), l, [block])
  {
    hide CalledFor, EmptyFailures;
    var blocks :| BackedBy(content, j, l, [block], blocks);
    forall p
      ensures Backed(content, j.(phase := p), l, [block])
    {
      assert BackedBy(content, j.(phase := p), l, [block], blocks);
    }
  }

  lemma JobStaysBacked(content: int -> byte, s: State, id: nat, a: Action)
    requires id < |s.jobs| && Enabled(s, id, a) && JobOk(s.jobs[id]) && JobBacked(content, s.jobs[id])
    ensures JobBacked(content, NextJob(content, s.jobs[id], a))
    ensures a.Return? && Completed(s.jobs[id]).Some? && Completed(s.jobs[id]).value.error == 0 ==>
              DataBacked(content, NextJob(content, s.jobs[id], a), Completed(s.jobs[id]).value.data)
  {
    hide Backed, DataBacked, React, Answerable, Signed, BufferLength, EmptyFailures;
    var j := s.jobs[id];
    match j.phase
    case Reading(l) =>
      if a.Ask? && React(content, l, a.answer).Emit? {
        AskBacked(content, j, l, a.answer);
      } else {
        SentBacked(content, j, l);
      }
    case WantStart(l, block) => LockBacked(content, j, l, block);
    case HaveStart(l, block) => SendBacked(content, j, l, block);
    case Sending(l, block) => SendBacked(content, j, l, block);
    case _ =>
  }

  lemma ActChanges(content: int -> byte, s: State, id: nat, a: Action)
    requires id < |s.jobs| && Enabled(s, id, a)
    ensures
      var s', j := Act(content, s, id, a), s.jobs[id];
      && s'.jobs == s.jobs[id := NextJob(content, j, a)]
      && s'.log == s.log + (if a.Return? && Completed(j).Some? then [Entry(id, Completed(j).value)] else [])
  {
    hide NextJob, NextPhase, Sent, Enabled, Holds, Completed;
  }

  lemma NotLogged(s: State, id: nat)
    requires LogOk(s) && id < |s.jobs| && !s.jobs[id].phase.Ended?
    ensures forall k :: 0 <= k < |s.log| ==> s.log[k].job != id
  {
  }

  /** A goroutine that has returned takes no more steps, so the answers it got stay. */
  lemma ActStaysBacked(content: int -> byte, s: State, id: nat, a: Action)
    requires AllBacked(content, s) && LogOk(s) && id < |s.jobs| && Enabled(s, id, a) && JobOk(s.jobs[id])
    ensures AllBacked(content, Act(content, s, id, a))
  {
    JobStaysBacked(content, s, id, a);
    Unfinished(content, s, id, a);
    NotLogged(s, id);
    ActChanges(content, s, id, a);
    hide Act, LogOk, JobOk, JobBacked, DataBacked, NextJob, NextPhase, Enabled, Completed;
    var s' := Act(content, s, id, a);
    assert forall k :: 0 <= k < |s.log| ==> s'.log[k] == s.log[k];
  }

  lemma MainStaysBacked(content: int -> byte, s: State, a: Action)
    requires AllBacked(content, s) && MainEnabled(s, a)
    ensures AllBacked(content, MainAct(s, a))
  {
    if a.Receive? {
      StartBacked(content, a.command);
    }
    hide Backed, DataBacked, Start;
  }

  lemma {:induction false} RunsBacked(content: int -> byte, states: seq<State>, k: nat)
    requires Run(content, states) && k < |states|
    ensures AllBacked(content, states[k])
    decreases k
  {
    hide Inv, Act, MainAct, Enabled, MainEnabled, JobBacked, DataBacked;
    if k > 0 {
      RunsBacked(content, states, k - 1);
      hide AllBacked;
      RunsInOrder(content, states, k - 1);
      var s := states[k - 1];
      assert Step(content, states[k - 1], states[k - 1 + 1]);
      if a: Action :| MainEnabled(s, a) && states[k] == MainAct(s, a) {
        MainStaysBacked(content, s, a);
      } else {
        var id: nat, a: Action :| id < |s.jobs| && Enabled(s, id, a) && states[k] == Act(content, s, id, a);
        InvParts(s, id);
        ActStaysBacked(content, s, id, a);
      }
    }
  }

  lemma InvParts(s: State, id: nat)
    requires Inv(s) && id < |s.jobs|
    ensures JobOk(s.jobs[id]) && LogOk(s)
  {
  }

  /**
   In every run the data of every reply is, block by block, what the answers given to its
   goroutine call for: the backend's bytes at that place, or filler for the whole portion exactly
   when the answer is the 31st or a later empty failure since the last error-free one.
   */
  lemma DataIsTheBackends(content: int -> byte, states: seq<State>, k: nat, i: nat)
    requires Run(content, states) && k < |states| && i < |states[k].log| && states[k].log[i].reply.error == 0
    ensures
      var e := states[k].log[i];
      e.job < |states[k].jobs| && DataBacked(content, states[k].jobs[e.job], e.reply.data)
  {
    hide Run, DataBacked, JobBacked;
    RunsBacked(content, states, k);
  }

  // ----- The client's view -----

  /** A client knows the length it asked for under each cookie; it cuts the stream into replies. */
  function Parse(stream: seq<byte>, lengths: map<nat, nat>): Option<seq<Reply>>
    decreases |stream|
  {
    if stream == [] then Some([])
    else if |stream| < HEADER_LENGTH || FromBigEndian(stream[..4]) != 0x67446698 then None
    else
      var error, cookie := FromBigEndian(stream[4..8]), FromBigEndian(stream[8..16]);
      var n := if error == 0 && cookie in lengths then lengths[cookie] else 0;
      if |stream| < HEADER_LENGTH + n then None else
      match Parse(stream[HEADER_LENGTH + n..], lengths)
      case None => None
      case Some(rest) => Some([Reply(cookie, error, stream[HEADER_LENGTH..HEADER_LENGTH + n])] + rest)
  }

  function Replies(log: seq<Entry>): (r: seq<Reply>)
    ensures |r| == |log|
  {
    if log == [] then [] else Replies(log[..|log| - 1]) + [log[|log| - 1].reply]
  }

  /** The reply is one the client can recognise: its fields fit, its length is the one remembered. */
  predicate Recognisable(r: Reply, lengths: map<nat, nat>) {
    && r.cookie < 0x1_0000_0000_0000_0000 && r.error < 0x1_0000_0000
    && |r.data| == if r.error == 0 && r.cookie in lengths then lengths[r.cookie] else 0
  }

  lemma Widths()
    ensures Pow256(4) == 0x1_0000_0000 && Pow256(8) == 0x1_0000_0000_0000_0000
  {
    assert Pow256(4) == 256 * (256 * (256 * (256 * Pow256(0))));
    assert Pow256(8) == 256 * (256 * (256 * (256 * Pow256(4))));
  }

  lemma HeaderFields(cookie: nat, error: nat, rest: seq<byte>)
    requires cookie < 0x1_0000_0000_0000_0000 && error < 0x1_0000_0000
    ensures
      var s := Header(cookie, error) + rest;
      && FromBigEndian(s[..4]) == REPLY_MAGIC && FromBigEndian(s[4..8]) == error
      && FromBigEndian(s[8..16]) == cookie && s[16..] == rest
  {
    Widths();
    BigEndianRoundTrip(REPLY_MAGIC, 4);
    BigEndianRoundTrip(error, 4);
    BigEndianRoundTrip(cookie, 8);
    hide BigEndian, FromBigEndian, Pow256;
    var s := Header(cookie, error) + rest;
    assert s[..4] == BigEndian(REPLY_MAGIC, 4);
    assert s[4..8] == BigEndian(error, 4);
    assert s[8..16] == BigEndian(cookie, 8);
  }

  lemma ParseOne(r: Reply, rest: seq<byte>, lengths: map<nat, nat>)
    requires Recognisable(r, lengths) && Parse(rest, lengths).Some?
    ensures Parse(Wire(r) + rest, lengths) == Some([r] + Parse(rest, lengths).value)
  {
    HeaderFields(r.cookie, r.error, r.data + rest);
    hide FromBigEndian, Header;
    FrameSlices(Header(r.cookie, r.error), r.data, rest);
  }

  lemma FrameSlices(h: seq<byte>, d: seq<byte>, rest: seq<byte>)
    ensures
      var s := h + d + rest;
      s == h + (d + rest) && s[|h|..|h| + |d|] == d && s[|h| + |d|..] == rest
  {
    var s := h + d + rest;
    assert s[..|h| + |d|] == h + d;
  }

  lemma {:induction false} ParseWires(log: seq<Entry>, rest: seq<byte>, lengths: map<nat, nat>)
    requires forall k :: 0 <= k < |log| ==> Recognisable(log[k].reply, lengths)
    requires Parse(rest, lengths).Some?
    ensures Parse(Wires(log) + rest, lengths) == Some(Replies(log) + Parse(rest, lengths).value)
    decreases |log|
  {
    hide Parse, Wire, Recognisable;
    if log == [] {
      assert Wires(log) + rest == rest;
      assert Replies(log) + Parse(rest, lengths).value == Parse(rest, lengths).value;
    } else {
      var n := |log| - 1;
      var last := log[n].reply;
      ParseOne(last, rest, lengths);
      ParseWires(log[..n], Wire(last) + rest, lengths);
      assert Wires(log) + rest == Wires(log[..n]) + (Wire(last) + rest);
      assert Replies(log[..n]) + ([last] + Parse(rest, lengths).value) == Replies(log) + Parse(rest, lengths).value;
    }
  }

  /**
   A client that never reuses a cookie and remembers the lengths it asked for reads the whole
   stream as exactly the replies that were sent.
   */
  lemma ClientUnderstands(content: int -> byte, states: seq<State>, k: nat, lengths: map<nat, nat>)
    requires Run(content, states) && k < |states| && !states[k].broken
    requires forall id :: 0 <= id < |states[k].jobs| ==>
                            states[k].jobs[id].phase.Ended? && Sane(states[k].jobs[id].command)
                            && states[k].jobs[id].command.cookie in lengths
                            && lengths[states[k].jobs[id].command.cookie] == states[k].jobs[id].command.length
    ensures Parse(states[k].out, lengths) == Some(Replies(states[k].log))
  {
    AnsweredExactlyOnce(content, states, k);
    hide Run, Wires, Parse, Replies;
    var s := states[k];
    forall i | 0 <= i < |s.log|
      ensures Recognisable(s.log[i].reply, lengths)
    {
      assert Fits(s.jobs[s.log[i].job].command, s.log[i].reply);
    }
    NothingLeft(lengths);
    ParseWires(s.log, [], lengths);
    assert Wires(s.log) + [] == Wires(s.log);
    assert Replies(s.log) + [] == Replies(s.log);
  }

  lemma NothingLeft(lengths: map<nat, nat>)
    ensures Parse([], lengths) == Some([])
  {
  }
}
