/**
 nbd/s3/queue.go: the two-level priority semaphore and the calls that take several of them.
 Goroutines interleave at every channel operation, so the calls are steps of a transition system.
 Channels of empty structs are reduced to their fill levels.
 */
module Queue {

  /**
   The three channels of one queue share the capacity `size`. `abandoned` counts priority tokens
   whose owner gave up between its two channel operations, `leaked` counts tokens of the global
   channel whose holder skipped the release because the queue was closed.
   */
  datatype Queue = Queue(
    size: nat, global: nat, normal: nat, low: nat, closed: bool, abandoned: nat, leaked: nat)

  /** Where a caller stands. `todo` lists the queues it still has to release. */
  datatype Phase =
    | Idle
    | Want(k: nat)            // before the priority channel of the k-th queue
    | Half(k: nat)            // past the priority channel, before the global one
    | Working                 // every queue acquired
    | Give(todo: seq<nat>)    // before the global channel of todo[0]
    | Try(todo: seq<nat>)     // before the non-blocking receive from the normal channel
    | Wait(todo: seq<nat>)    // in the blocking receive from either priority channel

  datatype Thread = Thread(order: seq<nat>, low: bool, phase: Phase)

  datatype System = System(queues: seq<Queue>, threads: seq<Thread>)

  datatype Action =
    | Begin(low: bool) | SendPriority | SendGlobal | Cancel | NoticeClosed
    | Finish | TakeGlobal | TryNormal | TryFail | TakeNormal | TakeLow | End

  /** A caller names each of its queues once. */
  predicate Distinct(todo: seq<nat>, n: nat) {
    && (forall i, j :: 0 <= i < j < |todo| ==> todo[i] != todo[j])
    && (forall i :: 0 <= i < |todo| ==> todo[i] < n)
  }

  predicate ThreadOk(t: Thread, n: nat) {
    Distinct(t.order, n) &&
    match t.phase
    case Idle => true
    case Want(k) => k < |t.order|
    case Half(k) => k < |t.order|
    case Working => true
    case Give(todo) => Distinct(todo, n)
    case Try(todo) => todo != [] && Distinct(todo, n)
    case Wait(todo) => todo != [] && Distinct(todo, n)
  }

  predicate WellFormed(s: System) {
    forall i :: 0 <= i < |s.threads| ==> ThreadOk(s.threads[i], |s.queues|)
  }

  function Reverse(s: seq<nat>): (r: seq<nat>)
    ensures |r| == |s| && forall i :: 0 <= i < |s| ==> r[i] == s[|s| - 1 - i]
  {
    seq(|s|, i requires 0 <= i < |s| => s[|s| - 1 - i])
  }

  /** The queue at which a thread acts next; -1 when no queue is involved. */
  function Site(t: Thread, n: nat): (q: int)
    requires ThreadOk(t, n)
    ensures -1 <= q < n
  {
    match t.phase
    case Want(k) => t.order[k]
    case Half(k) => t.order[k]
    case Give(todo) => if todo == [] then -1 else todo[0]
    case Try(todo) => todo[0]
    case Wait(todo) => todo[0]
    case _ => -1
  }

  /** The channel operations and context checks a thread faces in its phase. */
  predicate Offers(t: Thread, a: Action) {
    match t.phase
    case Idle => a.Begin?
    case Want(_) => a.SendPriority? || a.Cancel? || a.NoticeClosed?
    case Half(_) => a.SendGlobal? || a.Cancel? || a.NoticeClosed?
    case Working => a.Finish?
    case Give(todo) => if todo == [] then a.End? else a.TakeGlobal? || a.NoticeClosed?
    case Try(_) => a.TryNormal? || a.TryFail?
    case Wait(_) => a.TakeNormal? || a.TakeLow? || a.NoticeClosed?
  }

  /** The action would not block on this queue. */
  predicate Ready(q: Queue, t: Thread, a: Action) {
    match a
    case SendPriority => if t.low then q.low < q.size else q.normal < q.size
    case SendGlobal => q.global < q.size
    case TakeGlobal => q.global > 0
    case TryNormal => q.normal > 0
    case TryFail => q.normal == 0
    case TakeNormal => q.normal > 0
    case TakeLow => q.low > 0
    case NoticeClosed => q.closed
    case _ => true
  }

  predicate Enabled(s: System, i: nat, a: Action)
    requires WellFormed(s) && i < |s.threads|
  {
    var t := s.threads[i];
    var site := Site(t, |s.queues|);
    Offers(t, a) && (site >= 0 ==> Ready(s.queues[site], t, a))
  }

  /** Phase after a thread got past the global channel of its k-th queue. */
  function Acquired(t: Thread, k: nat): Phase {
    if k < |t.order| then Want(k) else Working
  }

  function NextPhase(t: Thread, a: Action): Phase {
    match (t.phase, a)
    case (Idle, Begin(_)) => Acquired(t, 0)
    case (Want(k), SendPriority) => Half(k)
    case (Want(k), _) => Give(if k <= |t.order| then t.order[..k] else [])
    case (Half(k), SendGlobal) => Acquired(t, k + 1)
    case (Half(k), _) => Give(if k <= |t.order| then t.order[..k] else [])
    case (Working, _) => Give(Reverse(t.order))
    case (Give(todo), TakeGlobal) => Try(todo)
    case (Give(todo), NoticeClosed) => Give(if todo == [] then [] else todo[1..])
    case (Try(todo), TryFail) => Wait(todo)
    case (Try(todo), _) => Give(if todo == [] then [] else todo[1..])
    case (Wait(todo), _) => Give(if todo == [] then [] else todo[1..])
    case _ => Idle
  }

  function NextQueue(q: Queue, t: Thread, a: Action): Queue {
    match (t.phase, a)
    case (Want(_), SendPriority) => if t.low then q.(low := q.low + 1) else q.(normal := q.normal + 1)
    case (Half(_), SendGlobal) => q.(global := q.global + 1)
    case (Half(_), _) => q.(abandoned := q.abandoned + 1)
    case (Give(_), TakeGlobal) => if q.global > 0 then q.(global := q.global - 1) else q
    case (Give(_), _) => q.(leaked := q.leaked + 1)
    case (Try(_), TryNormal) => if q.normal > 0 then q.(normal := q.normal - 1) else q
    case (Wait(_), TakeNormal) => if q.normal > 0 then q.(normal := q.normal - 1) else q
    case (Wait(_), TakeLow) => if q.low > 0 then q.(low := q.low - 1) else q
    case (Wait(_), _) => q.(abandoned := q.abandoned + 1)
    case _ => q
  }

  function Moved(t: Thread, a: Action): Thread {
    t.(phase := NextPhase(t, a), low := if a.Begin? then a.low else t.low)
  }

  function Act(s: System, i: nat, a: Action): (s': System)
    requires WellFormed(s) && i < |s.threads| && Enabled(s, i, a)
    ensures |s'.queues| == |s.queues| && |s'.threads| == |s.threads|
  {
    var t := s.threads[i];
    var site := Site(t, |s.queues|);
    var threads := s.threads[i := Moved(t, a)];
    var queues := if site < 0 then s.queues else s.queues[site := NextQueue(s.queues[site], t, a)];
    System(queues, threads)
  }

  function Close(s: System, q: nat): System
    requires q < |s.queues|
  {
    s.(queues := s.queues[q := s.queues[q].(closed := true)])
  }

  ghost predicate Step(s: System, s': System) {
    WellFormed(s) &&
    ((exists i: nat, a: Action :: i < |s.threads| && Enabled(s, i, a) && s' == Act(s, i, a))
     || (exists q: nat :: q < |s.queues| && s' == Close(s, q)))
  }

  predicate Fresh(s: System) {
    && WellFormed(s)
    && (forall i :: 0 <= i < |s.threads| ==> s.threads[i].phase == Idle)
    && (forall q :: 0 <= q < |s.queues| ==> s.queues[q] == Queue(s.queues[q].size, 0, 0, 0, false, 0, 0))
  }

  ghost predicate Run(states: seq<System>) {
    && states != [] && Fresh(states[0])
    && (forall k :: 0 <= k < |states| - 1 ==> Step(states[k], states[k + 1]))
  }

  // ----- Counting -----

  datatype Role = Holding | Acquiring | Releasing

  /** The queues a thread holds. */
  function Held(t: Thread): seq<nat> {
    match t.phase
    case Idle => []
    case Want(k) => if k <= |t.order| then t.order[..k] else []
    case Half(k) => if k <= |t.order| then t.order[..k] else []
    case Working => t.order
    case Give(todo) => todo
    case Try(todo) => if todo != [] then todo[1..] else []
    case Wait(todo) => if todo != [] then todo[1..] else []
  }

  /** How many tokens of queue q a thread accounts for in the given role: zero or one. */
  function Weight(role: Role, t: Thread, q: nat): nat {
    match role
    case Holding => if q in Held(t) then 1 else 0
    case Acquiring => if t.phase.Half? && t.phase.k < |t.order| && t.order[t.phase.k] == q then 1 else 0
    case Releasing =>
      if (t.phase.Try? || t.phase.Wait?) && t.phase.todo != [] && t.phase.todo[0] == q then 1 else 0
  }

  function Total(role: Role, threads: seq<Thread>, q: nat): nat {
    if threads == [] then 0 else Weight(role, threads[0], q) + Total(role, threads[1..], q)
  }

  lemma {:induction false} TotalUpdate(role: Role, threads: seq<Thread>, q: nat, i: nat, t: Thread)
    requires i < |threads|
    ensures Total(role, threads[i := t], q) + Weight(role, threads[i], q)
         == Total(role, threads, q) + Weight(role, t, q)
    decreases |threads|
  {
    if i > 0 {
      assert threads[i := t][1..] == threads[1..][i - 1 := t];
      TotalUpdate(role, threads[1..], q, i - 1, t);
    }
  }

  lemma {:induction false} TotalZero(role: Role, threads: seq<Thread>, q: nat)
    ensures Total(role, threads, q) == 0 <==>
            forall i :: 0 <= i < |threads| ==> Weight(role, threads[i], q) == 0
    decreases |threads|
  {
    if threads != [] {
      TotalZero(role, threads[1..], q);
      assert forall i :: 1 <= i < |threads| ==> threads[i] == threads[1..][i - 1];
    }
  }

  /** The counting laws of one queue. */
  predicate Balanced(s: System, q: nat)
    requires q < |s.queues|
  {
    var c := s.queues[q];
    && c.normal + c.low
       == c.global + Total(Acquiring, s.threads, q) + Total(Releasing, s.threads, q) + c.abandoned
    && c.global == Total(Holding, s.threads, q) + c.leaked
    && c.global <= c.size && c.normal <= c.size && c.low <= c.size
    && (c.leaked > 0 ==> c.closed)
  }

  predicate Inv(s: System) {
    WellFormed(s) && forall q :: 0 <= q < |s.queues| ==> Balanced(s, q)
  }

  lemma ActWellFormed(s: System, i: nat, a: Action)
    requires WellFormed(s) && i < |s.threads| && Enabled(s, i, a)
    ensures WellFormed(Act(s, i, a))
  {
    var t, n := s.threads[i], |s.queues|;
    assert ThreadOk(t, n);
    MovedOk(t, n, a);
    hide ThreadOk, Moved;
  }

  lemma MovedOk(t: Thread, n: nat, a: Action)
    requires ThreadOk(t, n) && Offers(t, a)
    ensures ThreadOk(Moved(t, a), n)
  {
    ReverseDistinct(t.order, n);
    hide Reverse;
  }

  lemma ReverseDistinct(order: seq<nat>, n: nat)
    requires Distinct(order, n)
    ensures Distinct(Reverse(order), n)
  {
  }

  lemma PrefixSnoc(order: seq<nat>, k: nat, n: nat, q: nat)
    requires Distinct(order, n) && k < |order|
    ensures q in order[..k + 1] <==> q in order[..k] || q == order[k]
    ensures order[k] !in order[..k]
  {
    assert order[..k + 1] == order[..k] + [order[k]];
  }

  lemma TailOf(todo: seq<nat>, n: nat, q: nat)
    requires Distinct(todo, n) && todo != []
    ensures q in todo <==> q == todo[0] || q in todo[1..]
    ensures todo[0] !in todo[1..]
  {
    assert todo == [todo[0]] + todo[1..];
  }

  lemma ReverseSame(order: seq<nat>, q: nat)
    ensures q in Reverse(order) <==> q in order
  {
    if q in order {
      var i :| 0 <= i < |order| && order[i] == q;
      assert Reverse(order)[|order| - 1 - i] == q;
    }
  }

  /** Getting past the global channel adds a queue to the held ones, starting a release removes it. */
  lemma HeldMoves(t: Thread, n: nat, a: Action, q: nat)
    requires ThreadOk(t, n) && Offers(t, a)
    ensures
      var here := if Site(t, n) == q then 1 else 0;
      Weight(Holding, Moved(t, a), q) ==
      if a.SendGlobal? then Weight(Holding, t, q) + here
      else if t.phase.Give? then Weight(Holding, t, q) - here
      else Weight(Holding, t, q)
  {
    hide Distinct, Reverse;
    HeldAfter(t, n, a);
    hide NextPhase, Acquired;
    match t.phase
    case Half(k) => PrefixSnoc(t.order, k, n, q);
    case Working => ReverseSame(t.order, q);
    case Give(todo) => if todo != [] { TailOf(todo, n, q); }
    case _ =>
  }

  lemma HeldAfter(t: Thread, n: nat, a: Action)
    requires ThreadOk(t, n) && Offers(t, a)
    ensures
      Held(Moved(t, a)) ==
      match t.phase
      case Half(k) => if a.SendGlobal? then t.order[..k + 1] else t.order[..k]
      case Working => Reverse(t.order)
      case Give(todo) => if todo == [] then [] else todo[1..]
      case _ => Held(t)
  {
    hide Distinct, Reverse;
  }

  /** At its own queue an action moves tokens between the channels and the roles. */
  lemma RolesMove(c: Queue, t: Thread, n: nat, a: Action)
    requires ThreadOk(t, n) && Offers(t, a) && Site(t, n) >= 0 && Ready(c, t, a)
    ensures
      var q, t', c' := Site(t, n), Moved(t, a), NextQueue(c, t, a);
      && c'.normal + c'.low + c.global + Weight(Acquiring, t, q) + Weight(Releasing, t, q) + c.abandoned
         == c.normal + c.low + c'.global + Weight(Acquiring, t', q) + Weight(Releasing, t', q) + c'.abandoned
      && c'.global + c.leaked + (if t.phase.Give? then 1 else 0)
         == c.global + c'.leaked + (if a.SendGlobal? then 1 else 0)
      && c'.size == c.size && c'.closed == c.closed
  {
    hide Held, Distinct;
  }

  /** Elsewhere it has no role. */
  lemma RolesElsewhere(t: Thread, n: nat, a: Action, q: nat)
    requires ThreadOk(t, n) && Offers(t, a) && Site(t, n) != q
    ensures Weight(Acquiring, t, q) == 0 && Weight(Releasing, t, q) == 0
    ensures Weight(Acquiring, Moved(t, a), q) == 0 && Weight(Releasing, Moved(t, a), q) == 0
  {
    hide Held, Distinct;
  }

  /** What one action does to the counters of queue q: they move with the acting thread's roles. */
  lemma ActMoves(s: System, i: nat, a: Action, q: nat)
    requires WellFormed(s) && i < |s.threads| && Enabled(s, i, a) && q < |s.queues|
    ensures
      var t, t' := s.threads[i], Act(s, i, a).threads[i];
      var c, c' := s.queues[q], Act(s, i, a).queues[q];
      && c'.size == c.size && c'.closed == c.closed
      && c'.normal + c'.low + c.global + Weight(Acquiring, t, q) + Weight(Releasing, t, q) + c.abandoned
         == c.normal + c.low + c'.global + Weight(Acquiring, t', q) + Weight(Releasing, t', q) + c'.abandoned
      && c'.global + Weight(Holding, t, q) + c.leaked
         == c.global + Weight(Holding, t', q) + c'.leaked
  {
    hide Weight, NextQueue, Moved, Offers, Ready, ThreadOk, Site;
    var t := s.threads[i];
    assert ThreadOk(t, |s.queues|);
    HeldMoves(t, |s.queues|, a, q);
    if Site(t, |s.queues|) == q {
      RolesMove(s.queues[q], t, |s.queues|, a);
      OneStart(t, a);
    } else {
      RolesElsewhere(t, |s.queues|, a, q);
    }
  }

  lemma OneStart(t: Thread, a: Action)
    requires Offers(t, a)
    ensures !(a.SendGlobal? && t.phase.Give?)
  {
  }

  lemma ActBounded(s: System, i: nat, a: Action, q: nat)
    requires WellFormed(s) && i < |s.threads| && Enabled(s, i, a) && q < |s.queues|
    ensures
      var c, c' := s.queues[q], Act(s, i, a).queues[q];
      && (c.global <= c.size ==> c'.global <= c'.size)
      && (c.normal <= c.size ==> c'.normal <= c'.size)
      && (c.low <= c.size ==> c'.low <= c'.size)
      && (c'.leaked > c.leaked ==> c.closed) && c'.closed == c.closed
  {
  }

  lemma ActKeepsInv(s: System, i: nat, a: Action)
    requires Inv(s) && i < |s.threads| && Enabled(s, i, a)
    ensures Inv(Act(s, i, a))
  {
    hide Weight, NextQueue, NextPhase, Enabled, Offers, Ready, ThreadOk;
    ActWellFormed(s, i, a);
    var s' := Act(s, i, a);
    forall q | 0 <= q < |s'.queues|
      ensures Balanced(s', q)
    {
      assert Balanced(s, q);
      ActMoves(s, i, a, q);
      ActBounded(s, i, a, q);
      TotalUpdate(Holding, s.threads, q, i, s'.threads[i]);
      TotalUpdate(Acquiring, s.threads, q, i, s'.threads[i]);
      TotalUpdate(Releasing, s.threads, q, i, s'.threads[i]);
    }
  }

  lemma StepKeepsInv(s: System, s': System)
    requires Inv(s) && Step(s, s')
    ensures Inv(s')
  {
    hide Enabled, Act, Balanced, Total;
    if i: nat, a: Action :| i < |s.threads| && Enabled(s, i, a) && s' == Act(s, i, a) {
      ActKeepsInv(s, i, a);
    } else {
      var q: nat :| q < |s.queues| && s' == Close(s, q);
      CloseKeepsInv(s, q);
    }
  }

  lemma CloseKeepsInv(s: System, q: nat)
    requires Inv(s) && q < |s.queues|
    ensures Inv(Close(s, q))
  {
    hide Total;
    forall p | 0 <= p < |s.queues|
      ensures Balanced(Close(s, q), p)
    {
      assert Balanced(s, p);
    }
  }

  lemma FreshInv(s: System)
    requires Fresh(s)
    ensures Inv(s)
  {
    forall q | 0 <= q < |s.queues|
      ensures Balanced(s, q)
    {
      TotalZero(Holding, s.threads, q);
      TotalZero(Acquiring, s.threads, q);
      TotalZero(Releasing, s.threads, q);
    }
  }

  /** Every state of every run obeys the counting laws. */
  lemma {:induction false} RunsBalanced(states: seq<System>, k: nat)
    requires Run(states) && k < |states|
    ensures Inv(states[k])
    decreases k
  {
    hide Inv, Step, Fresh;
    if k == 0 {
      FreshInv(states[0]);
    } else {
      RunsBalanced(states, k - 1);
      assert Step(states[k - 1], states[k - 1 + 1]);
      StepKeepsInv(states[k - 1], states[k]);
    }
  }

  // ----- Consequences -----

  lemma {:induction false} WeightInTotal(role: Role, threads: seq<Thread>, q: nat, i: nat)
    requires i < |threads|
    ensures Weight(role, threads[i], q) <= Total(role, threads, q)
    decreases |threads|
  {
    hide Weight;
    if i > 0 {
      WeightInTotal(role, threads[1..], q, i - 1);
    }
  }

  /** A release by a holder never blocks, neither before the global channel nor behind it. */
  lemma ReleaseNeverBlocks(s: System, i: nat)
    requires Inv(s) && i < |s.threads|
    ensures
      match s.threads[i].phase
      case Give(todo) => todo != [] ==> Enabled(s, i, TakeGlobal)
      case Try(_) => Enabled(s, i, TryNormal) || Enabled(s, i, TryFail)
      case Wait(_) => Enabled(s, i, TakeNormal) || Enabled(s, i, TakeLow)
      case _ => true
  {
    hide Total;
    var t := s.threads[i];
    assert ThreadOk(t, |s.queues|);
    var q := Site(t, |s.queues|);
    if q >= 0 {
      assert Balanced(s, q);
      WeightInTotal(Holding, s.threads, q, i);
      WeightInTotal(Releasing, s.threads, q, i);
    }
  }

  /** What the other threads account for in a role. */
  function Others(role: Role, s: System, i: nat, q: nat): nat
    requires i < |s.threads|
  {
    Total(role, s.threads[i := s.threads[i].(phase := Idle)], q)
  }

  /**
   A call that takes several queues is all or nothing on open queues: outside a call a caller
   accounts for no token, after a successful call for exactly one global and one priority token of
   each queue it named. A priority token that a cancelled call left behind is counted as abandoned.
   */
  lemma AllOrNothing(s: System, i: nat, q: nat)
    requires Inv(s) && i < |s.threads| && q < |s.queues| && !s.queues[q].closed
    requires s.threads[i].phase.Idle? || s.threads[i].phase.Working?
    ensures
      var c := s.queues[q];
      var own := if s.threads[i].phase.Working? && q in s.threads[i].order then 1 else 0;
      && c.global == Others(Holding, s, i, q) + own
      && c.normal + c.low == Others(Holding, s, i, q) + own + Others(Acquiring, s, i, q)
                             + Others(Releasing, s, i, q) + c.abandoned
  {
    hide Total;
    assert Balanced(s, q);
    var idle := s.threads[i].(phase := Idle);
    TotalUpdate(Holding, s.threads, q, i, idle);
    TotalUpdate(Acquiring, s.threads, q, i, idle);
    TotalUpdate(Releasing, s.threads, q, i, idle);
  }

  /** A token is abandoned exactly when a call gives up between its two channels, or a release does on closing. */
  lemma AbandonedExactly(s: System, i: nat, a: Action, q: nat)
    requires WellFormed(s) && i < |s.threads| && Enabled(s, i, a) && q < |s.queues|
    ensures
      var t := s.threads[i];
      Act(s, i, a).queues[q].abandoned ==
      s.queues[q].abandoned +
      if Site(t, |s.queues|) == q && ((t.phase.Half? && !a.SendGlobal?) || (t.phase.Wait? && a.NoticeClosed?))
      then 1 else 0
  {
    hide NextPhase;
  }

  /** With no call in progress an open queue holds nothing but abandoned priority tokens. */
  lemma Quiescent(s: System, q: nat)
    requires Inv(s) && q < |s.queues| && !s.queues[q].closed
    requires forall i :: 0 <= i < |s.threads| ==> s.threads[i].phase.Idle?
    ensures s.queues[q].global == 0
    ensures s.queues[q].normal + s.queues[q].low == s.queues[q].abandoned
  {
    assert Balanced(s, q);
    TotalZero(Holding, s.threads, q);
    TotalZero(Acquiring, s.threads, q);
    TotalZero(Releasing, s.threads, q);
  }

  // ----- Deadlock -----

  /** The thread is inside a call and no operation it faces can proceed; being cancelled is no progress. */
  ghost predicate Blocked(s: System, i: nat)
    requires WellFormed(s) && i < |s.threads|
  {
    && !s.threads[i].phase.Idle?
    && (forall a: Action :: !a.Cancel? ==> !Enabled(s, i, a))
  }

  ghost predicate Deadlocked(s: System)
    requires WellFormed(s)
  {
    && (exists i :: 0 <= i < |s.threads| && !s.threads[i].phase.Idle?)
    && (forall i :: 0 <= i < |s.threads| && !s.threads[i].phase.Idle? ==> Blocked(s, i))
  }

  /** A blocked thread waits to acquire, on an open queue whose channel is full. */
  lemma BlockedWaits(s: System, i: nat)
    requires Inv(s) && i < |s.threads| && Blocked(s, i)
    ensures
      var t := s.threads[i];
      var site := Site(t, |s.queues|);
      && site >= 0 && !s.queues[site].closed
      && (t.phase.Want? || t.phase.Half?)
      && (t.phase.Want? ==> if t.low then s.queues[site].low == s.queues[site].size
                            else s.queues[site].normal == s.queues[site].size)
      && (t.phase.Half? ==> s.queues[site].global == s.queues[site].size)
  {
    hide Total;
    var t := s.threads[i];
    var n := |s.queues|;
    assert ThreadOk(t, n);
    ReleaseNeverBlocks(s, i);
    assert !Enabled(s, i, Finish) && !Enabled(s, i, End) && !Enabled(s, i, TakeGlobal);
    assert !Enabled(s, i, TryNormal) && !Enabled(s, i, TryFail);
    assert !Enabled(s, i, TakeNormal) && !Enabled(s, i, TakeLow);
    assert !Enabled(s, i, NoticeClosed) && !Enabled(s, i, SendPriority) && !Enabled(s, i, SendGlobal);
    if t.phase.Want? || t.phase.Half? {
      assert Balanced(s, Site(t, n));
    }
  }

  /** Callers name their queues in a common order. */
  predicate Ascending(s: System) {
    forall i, j, k :: 0 <= i < |s.threads| && 0 <= j < k < |s.threads[i].order| ==>
                        s.threads[i].order[j] < s.threads[i].order[k]
  }

  predicate HasToken(t: Thread, q: nat) {
    Weight(Holding, t, q) + Weight(Acquiring, t, q) + Weight(Releasing, t, q) > 0
  }

  /** A blocked thread waits for another one that has a token of its queue. */
  ghost predicate WaitsFor(s: System, i: nat, j: nat)
    requires WellFormed(s) && i < |s.threads| && j < |s.threads|
  {
    var q := Site(s.threads[i], |s.queues|);
    i != j && Blocked(s, i) && q >= 0 && HasToken(s.threads[j], q)
  }

  ghost predicate Chain(s: System, path: seq<nat>)
    requires WellFormed(s)
  {
    && path != [] && (forall k :: 0 <= k < |path| ==> path[k] < |s.threads|)
    && (forall k :: 0 <= k < |path| - 1 ==> WaitsFor(s, path[k], path[k + 1]))
  }

  lemma ChainCons(s: System, i: nat, rest: seq<nat>)
    requires WellFormed(s) && i < |s.threads| && Chain(s, rest) && WaitsFor(s, i, rest[0])
    ensures Chain(s, [i] + rest)
  {
    hide WaitsFor;
    var path := [i] + rest;
    forall k | 0 <= k < |path| - 1
      ensures WaitsFor(s, path[k], path[k + 1])
    {
      if k > 0 {
        assert WaitsFor(s, rest[k - 1], rest[k - 1 + 1]);
      }
    }
  }

  lemma TotalWitness(role: Role, threads: seq<Thread>, q: nat) returns (j: nat)
    requires Total(role, threads, q) > 0
    ensures j < |threads| && Weight(role, threads[j], q) > 0
  {
    TotalZero(role, threads, q);
    hide Total, Weight;
    j :| 0 <= j < |threads| && Weight(role, threads[j], q) > 0;
  }

  /** Before the priority channel of a queue a thread has no token of it, behind it only the priority token. */
  lemma OwnTokens(t: Thread, n: nat)
    requires ThreadOk(t, n) && (t.phase.Want? || t.phase.Half?)
    ensures Site(t, n) >= 0 && Weight(Holding, t, Site(t, n)) == 0
    ensures t.phase.Want? ==> !HasToken(t, Site(t, n))
  {
  }

  /** Some other thread has a token of the queue that a blocked thread waits for. */
  lemma SomeoneHas(s: System, i: nat) returns (j: nat)
    requires Inv(s) && i < |s.threads| && Blocked(s, i)
    requires forall q :: 0 <= q < |s.queues| ==> s.queues[q].abandoned < s.queues[q].size
    ensures j < |s.threads| && WaitsFor(s, i, j)
    ensures s.threads[i].phase.Half? ==> Weight(Holding, s.threads[j], Site(s.threads[i], |s.queues|)) > 0
  {
    hide Total, Weight, Blocked;
    BlockedWaits(s, i);
    var t := s.threads[i];
    var q := Site(t, |s.queues|);
    OwnTokens(t, |s.queues|);
    assert Balanced(s, q);
    if Total(Holding, s.threads, q) > 0 {
      j := TotalWitness(Holding, s.threads, q);
    } else if Total(Acquiring, s.threads, q) > 0 {
      j := TotalWitness(Acquiring, s.threads, q);
    } else {
      j := TotalWitness(Releasing, s.threads, q);
    }
  }

  /** How far a waiting thread is from the last queue. */
  function Distance(t: Thread, n: nat): int
    requires ThreadOk(t, n)
  {
    match t.phase
    case Want(k) => 2 * (n - t.order[k]) + 1
    case Half(k) => 2 * (n - t.order[k])
    case _ => 0
  }

  lemma CloserWaiter(s: System, i: nat, j: nat)
    requires Inv(s) && Ascending(s) && i < |s.threads| && j < |s.threads| && WaitsFor(s, i, j) && Blocked(s, j)
    requires s.threads[i].phase.Half? ==> Weight(Holding, s.threads[j], Site(s.threads[i], |s.queues|)) > 0
    ensures 0 <= Distance(s.threads[j], |s.queues|) < Distance(s.threads[i], |s.queues|)
  {
    BlockedWaits(s, i);
    BlockedWaits(s, j);
    hide Balanced, Blocked;
    assert ThreadOk(s.threads[i], |s.queues|) && ThreadOk(s.threads[j], |s.queues|);
  }

  /**
   From every thread inside a call a chain of waits leads to a thread that can go on, while every
   queue has capacity left that is not abandoned. So not even a part of the threads is deadlocked.
   */
  lemma {:induction false} WaitChain(s: System, i: nat) returns (path: seq<nat>)
    requires Inv(s) && Ascending(s) && i < |s.threads| && !s.threads[i].phase.Idle?
    requires forall q :: 0 <= q < |s.queues| ==> s.queues[q].abandoned < s.queues[q].size
    ensures Chain(s, path) && path[0] == i
    ensures !s.threads[path[|path| - 1]].phase.Idle? && !Blocked(s, path[|path| - 1])
    decreases if Blocked(s, i) then Distance(s.threads[i], |s.queues|) + 1 else 0
  {
    assert WellFormed(s);
    hide Inv, WellFormed, Blocked, Distance, Ascending;
    path := [i];
    if Blocked(s, i) {
      var j := SomeoneHas(s, i);
      NotIdle(s.threads[j], Site(s.threads[i], |s.queues|));
      if Blocked(s, j) {
        CloserWaiter(s, i, j);
      } else {
        DistanceNatural(s, i);
      }
      var rest := WaitChain(s, j);
      path := path + rest;
      ChainCons(s, i, rest);
    }
  }

  lemma NotIdle(t: Thread, q: nat)
    requires HasToken(t, q)
    ensures !t.phase.Idle?
  {
  }

  lemma DistanceNatural(s: System, i: nat)
    requires WellFormed(s) && i < |s.threads|
    ensures Distance(s.threads[i], |s.queues|) >= 0
  {
    assert ThreadOk(s.threads[i], |s.queues|);
  }

  /**
   Callers that name their queues in a common order deadlock only after the abandoned priority
   tokens have used up the whole capacity of some queue.
   */
  lemma DeadlockNeedsAbandoned(s: System)
    requires Inv(s) && Ascending(s) && Deadlocked(s)
    ensures exists q :: 0 <= q < |s.queues| && s.queues[q].abandoned >= s.queues[q].size
  {
    if forall q :: 0 <= q < |s.queues| ==> s.queues[q].abandoned < s.queues[q].size {
      hide Inv, Blocked, Ascending;
      var i :| 0 <= i < |s.threads| && !s.threads[i].phase.Idle?;
      var path := WaitChain(s, i);
      assert false;
    }
  }

  /** No reachable state is deadlocked while every queue has capacity left that is not abandoned. */
  lemma NoDeadlock(states: seq<System>, k: nat)
    requires Run(states) && k < |states| && Ascending(states[k])
    requires forall q :: 0 <= q < |states[k].queues| ==> states[k].queues[q].abandoned < states[k].queues[q].size
    ensures WellFormed(states[k]) && !Deadlocked(states[k])
  {
    RunsBalanced(states, k);
    if Deadlocked(states[k]) {
      DeadlockNeedsAbandoned(states[k]);
    }
  }

  // ----- The bound is tight -----

  /** One queue and one caller that was cancelled n times between its two channel operations. */
  function Cancelled(size: nat, n: nat): System {
    System([Queue(size, 0, n, 0, false, n, 0)], [Thread([0], false, Idle)])
  }

  lemma ActIsStep(s: System, i: nat, a: Action)
    requires WellFormed(s) && i < |s.threads| && Enabled(s, i, a)
    ensures Step(s, Act(s, i, a))
  {
  }

  lemma CancelOnce(size: nat, n: nat) returns (b: System, c: System, d: System)
    requires n < size
    ensures Step(Cancelled(size, n), b) && Step(b, c) && Step(c, d) && Step(d, Cancelled(size, n + 1))
  {
    hide Step, Act, Enabled, WellFormed;
    b := System([Queue(size, 0, n, 0, false, n, 0)], [Thread([0], false, Want(0))]);
    c := System([Queue(size, 0, n + 1, 0, false, n, 0)], [Thread([0], false, Half(0))]);
    d := System([Queue(size, 0, n + 1, 0, false, n + 1, 0)], [Thread([0], false, Give([]))]);
    Single(Queue(size, 0, n, 0, false, n, 0), Idle, Begin(false));
    Single(b.queues[0], Want(0), SendPriority);
    Single(c.queues[0], Half(0), Cancel);
    Single(d.queues[0], Give([]), End);
  }

  /** One action of the only caller of the only queue. */
  lemma Single(q: Queue, phase: Phase, a: Action)
    requires a.Begin? ==> !a.low
    requires
      var t := Thread([0], false, phase);
      ThreadOk(t, 1) && Offers(t, a) && Ready(q, t, a)
    ensures
      var t := Thread([0], false, phase);
      Step(System([q], [t]), System([if Site(t, 1) == 0 then NextQueue(q, t, a) else q], [Moved(t, a)]))
  {
    hide Step, NextQueue, Moved, Offers, Ready;
    var t := Thread([0], false, phase);
    var s := System([q], [t]);
    assert WellFormed(s) && Enabled(s, 0, a);
    ActIsStep(s, 0, a);
    assert Act(s, 0, a).threads == [Moved(t, a)];
    assert Act(s, 0, a).queues == [if Site(t, 1) == 0 then NextQueue(q, t, a) else q];
  }

  /** A run that ends after n such cancellations. */
  lemma {:induction false} CancelledRun(size: nat, n: nat) returns (states: seq<System>)
    requires n <= size
    ensures Run(states) && states[|states| - 1] == Cancelled(size, n)
    decreases n
  {
    hide Step;
    if n == 0 {
      states := [Cancelled(size, 0)];
    } else {
      var before := CancelledRun(size, n - 1);
      var b, c, d := CancelOnce(size, n - 1);
      states := before + [b, c, d, Cancelled(size, n)];
    }
  }

  /**
   As many cancellations as the queue has room for, and the next caller with normal priority is
   blocked although nobody holds the queue.
   */
  lemma CancellationsWedge(size: nat) returns (states: seq<System>)
    requires size > 0
    ensures Run(states)
    ensures
      var s := states[|states| - 1];
      && WellFormed(s) && Ascending(s) && Deadlocked(s)
      && s == System([Queue(size, 0, size, 0, false, size, 0)], [Thread([0], false, Want(0))])
  {
    var before := CancelledRun(size, size);
    var a := Cancelled(size, size);
    assert Enabled(a, 0, Begin(false));
    var s := Act(a, 0, Begin(false));
    states := before + [s];
    assert Step(a, s);
    assert s.threads[0].phase == Want(0);
    assert Blocked(s, 0);
  }

  /** No state with queues of this size and at most n abandoned tokens in each is deadlocked, in any run. */
  ghost predicate Tolerates(size: nat, n: nat) {
    forall states: seq<System>, k: nat ::
      Run(states) && k < |states| && WellFormed(states[k]) && Ascending(states[k])
      && (forall q :: 0 <= q < |states[k].queues| ==> states[k].queues[q].size == size && states[k].queues[q].abandoned <= n)
      ==> !Deadlocked(states[k])
  }

  /** Queues tolerate n abandoned tokens if and only if n is below their size. */
  lemma ToleratesBelowSize(size: nat, n: nat)
    requires size > 0
    ensures Tolerates(size, n) <==> n < size
  {
    hide Run, WellFormed, Deadlocked, Ascending;
    if n < size {
      forall states: seq<System>, k: nat
        | Run(states) && k < |states| && WellFormed(states[k]) && Ascending(states[k])
          && forall q :: 0 <= q < |states[k].queues| ==> states[k].queues[q].size == size && states[k].queues[q].abandoned <= n
        ensures !Deadlocked(states[k])
      {
        NoDeadlock(states, k);
      }
    } else {
      var states := CancellationsWedge(size);
    }
  }

  // ----- Closing -----

  lemma StepStaysClosed(s: System, s': System, q: nat)
    requires Step(s, s') && q < |s.queues|
    ensures q < |s'.queues| && (s.queues[q].closed ==> s'.queues[q].closed)
  {
    hide Enabled, NextPhase, Moved;
  }

  lemma {:induction false} StaysClosed(states: seq<System>, k: nat, m: nat, q: nat)
    requires Run(states) && k <= m < |states| && q < |states[k].queues| && states[k].queues[q].closed
    ensures q < |states[m].queues| && states[m].queues[q].closed
    decreases m
  {
    hide Step, Fresh;
    if k < m {
      StaysClosed(states, k, m - 1, q);
      assert Step(states[m - 1], states[m - 1 + 1]);
      StepStaysClosed(states[m - 1], states[m], q);
    }
  }

  /** After a queue is closed nobody is ever blocked at it again, and closing changes nothing else. */
  lemma ClosingFrees(states: seq<System>, k: nat, m: nat, q: nat, i: nat)
    requires Run(states) && k < m < |states| && q < |states[k].queues| && states[k + 1] == Close(states[k], q)
    requires i < |states[m].threads|
    ensures states[k + 1].threads == states[k].threads
    ensures forall p :: 0 <= p < |states[k].queues| && p != q ==> states[k + 1].queues[p] == states[k].queues[p]
    ensures WellFormed(states[m]) && (Blocked(states[m], i) ==> Site(states[m].threads[i], |states[m].queues|) != q)
  {
    StaysClosed(states, k + 1, m, q);
    RunsBalanced(states, m);
    hide Run;
    if Blocked(states[m], i) {
      BlockedWaits(states[m], i);
    }
  }

  // ----- Who is refused -----

  /** The fill level of the priority channel a thread uses. */
  function Own(q: Queue, low: bool): nat {
    if low then q.low else q.normal
  }

  /** One step of a thread that is not cancelled. */
  ghost predicate SoloStep(s: System, i: nat, s': System) {
    WellFormed(s) && i < |s.threads| &&
    exists a: Action :: !a.Cancel? && Enabled(s, i, a) && s' == Act(s, i, a)
  }

  ghost predicate Solo(i: nat, states: seq<System>) {
    states != [] && forall k :: 0 <= k < |states| - 1 ==> SoloStep(states[k], i, states[k + 1])
  }

  /** Left alone and not cancelled, the thread gets all its queues. */
  ghost predicate Acquires(s: System, i: nat) {
    exists states: seq<System> ::
      Solo(i, states) && states[0] == s && i < |states[|states| - 1].threads|
      && states[|states| - 1].threads[i].phase == Working
  }

  /** The thread has its first k queues, and those it still wants are open and free. */
  predicate Wanting(s: System, i: nat, k: nat) {
    && WellFormed(s) && i < |s.threads|
    && k <= |s.threads[i].order| && s.threads[i].phase == Acquired(s.threads[i], k)
    && forall j :: k <= j < |s.threads[i].order| ==>
         var c := s.queues[s.threads[i].order[j]]; !c.closed && c.global == 0
  }

  predicate RoomFrom(s: System, i: nat, k: nat)
    requires Wanting(s, i, k)
  {
    forall j :: k <= j < |s.threads[i].order| ==>
      var c := s.queues[s.threads[i].order[j]]; Own(c, s.threads[i].low) < c.size
  }

  lemma SoloCons(i: nat, s: System, states: seq<System>)
    requires Solo(i, states) && SoloStep(s, i, states[0])
    ensures Solo(i, [s] + states)
  {
    hide SoloStep;
    var longer := [s] + states;
    forall k | 0 <= k < |longer| - 1
      ensures SoloStep(longer[k], i, longer[k + 1])
    {
      if k > 0 {
        assert SoloStep(states[k - 1], i, states[k - 1 + 1]);
      }
    }
  }

  /** Taking one queue with room leaves the others as they are. */
  lemma TakesOne(s: System, i: nat, k: nat) returns (half: System, done: System)
    requires Wanting(s, i, k) && k < |s.threads[i].order|
    requires var c := s.queues[s.threads[i].order[k]]; Own(c, s.threads[i].low) < c.size
    ensures SoloStep(s, i, half) && SoloStep(half, i, done) && Wanting(done, i, k + 1)
    ensures done.threads[i].order == s.threads[i].order && done.threads[i].low == s.threads[i].low
    ensures forall j :: k < j < |s.threads[i].order| ==>
              done.queues[s.threads[i].order[j]] == s.queues[s.threads[i].order[j]]
    ensures |done.queues| == |s.queues|
  {
    assert ThreadOk(s.threads[i], |s.queues|);
    assert Enabled(s, i, SendPriority);
    half := Act(s, i, SendPriority);
    ActWellFormed(s, i, SendPriority);
    assert ThreadOk(half.threads[i], |half.queues|);
    assert Enabled(half, i, SendGlobal);
    done := Act(half, i, SendGlobal);
    ActWellFormed(half, i, SendGlobal);
  }

  lemma {:induction false} RoomSuffices(s: System, i: nat, k: nat) returns (states: seq<System>)
    requires Wanting(s, i, k) && RoomFrom(s, i, k)
    ensures Solo(i, states) && states[0] == s
    ensures i < |states[|states| - 1].threads| && states[|states| - 1].threads[i].phase == Working
    decreases |s.threads[i].order| - k
  {
    hide SoloStep, Own;
    if k == |s.threads[i].order| {
      states := [s];
    } else {
      var half, done := TakesOne(s, i, k);
      var rest := RoomSuffices(done, i, k + 1);
      SoloCons(i, half, rest);
      SoloCons(i, s, [half] + rest);
      states := [s] + ([half] + rest);
    }
  }

  /** The thread has not got past the j-th queue, whose priority channel is full for it. */
  predicate Stopped(s: System, i: nat, j: nat, low: bool) {
    && WellFormed(s) && i < |s.threads| && j < |s.threads[i].order| && s.threads[i].low == low
    && (forall q :: q in s.threads[i].order ==> !s.queues[q].closed)
    && Own(s.queues[s.threads[i].order[j]], low) >= s.queues[s.threads[i].order[j]].size
    && match s.threads[i].phase
       case Want(k) => k <= j
       case Half(k) => k < j
       case _ => false
  }

  lemma StaysStopped(s: System, i: nat, j: nat, low: bool, s': System)
    requires Stopped(s, i, j, low) && SoloStep(s, i, s')
    ensures Stopped(s', i, j, low)
  {
    var a: Action :| !a.Cancel? && Enabled(s, i, a) && s' == Act(s, i, a);
    assert ThreadOk(s.threads[i], |s.queues|);
    ActWellFormed(s, i, a);
  }

  lemma {:induction false} StopsForGood(i: nat, states: seq<System>, j: nat, low: bool, n: nat)
    requires Solo(i, states) && Stopped(states[0], i, j, low) && n < |states|
    ensures Stopped(states[n], i, j, low)
  {
    hide Stopped, SoloStep;
    if n > 0 {
      StopsForGood(i, states, j, low, n - 1);
      assert SoloStep(states[n - 1], i, states[n - 1 + 1]);
      StaysStopped(states[n - 1], i, j, low, states[n]);
    }
  }

  /**
   A caller that has just begun while all others are idle gets its queues, which are open, if and
   only if its own priority channel has room in each of them.
   */
  lemma AcquiresExactly(s: System, i: nat)
    requires Inv(s) && i < |s.threads| && s.threads[i].phase == Acquired(s.threads[i], 0)
    requires forall j :: 0 <= j < |s.threads| && j != i ==> s.threads[j].phase.Idle?
    requires forall q :: q in s.threads[i].order ==> 0 <= q < |s.queues| && !s.queues[q].closed
    ensures Acquires(s, i) <==>
            forall q :: q in s.threads[i].order ==> Own(s.queues[q], s.threads[i].low) < s.queues[q].size
  {
    var t := s.threads[i];
    forall q | q in t.order
      ensures s.queues[q].global == 0
    {
      NothingHeld(s, i, q);
    }
    if forall q :: q in t.order ==> Own(s.queues[q], t.low) < s.queues[q].size {
      assert Wanting(s, i, 0) && RoomFrom(s, i, 0);
      var states := RoomSuffices(s, i, 0);
    } else {
      hide Inv;
      var j :| 0 <= j < |t.order| && Own(s.queues[t.order[j]], t.low) >= s.queues[t.order[j]].size;
      NeverAcquires(s, i, j);
    }
  }

  lemma NeverAcquires(s: System, i: nat, j: nat)
    requires i < |s.threads| && Stopped(s, i, j, s.threads[i].low)
    ensures !Acquires(s, i)
  {
    forall states: seq<System> | Solo(i, states) && states[0] == s && i < |states[|states| - 1].threads|
      ensures states[|states| - 1].threads[i].phase != Working
    {
      StopsForGood(i, states, j, s.threads[i].low, |states| - 1);
    }
  }

  lemma NothingHeld(s: System, i: nat, q: nat)
    requires Inv(s) && i < |s.threads| && q < |s.queues| && !s.queues[q].closed
    requires s.threads[i].phase == Acquired(s.threads[i], 0) && q in s.threads[i].order
    requires forall j :: 0 <= j < |s.threads| && j != i ==> s.threads[j].phase.Idle?
    ensures s.queues[q].global == 0
  {
    assert Balanced(s, q);
    TotalZero(Holding, s.threads, q);
  }

  /**
   With everybody idle, an open queue refuses its next caller, whatever the priority, if and only
   if abandoned tokens fill both priority channels.
   */
  lemma RefusesEverybody(s: System, i: nat, q: nat)
    requires Inv(s) && i < |s.threads| && q < |s.queues| && !s.queues[q].closed && s.threads[i].order == [q]
    requires forall j :: 0 <= j < |s.threads| ==> s.threads[j].phase.Idle?
    ensures Enabled(s, i, Begin(false)) && Enabled(s, i, Begin(true))
    ensures
      (forall low :: !Acquires(Act(s, i, Begin(low)), i)) <==> s.queues[q].abandoned == 2 * s.queues[q].size
  {
    Quiescent(s, q);
    assert Balanced(s, q);
    forall low: bool
      ensures Enabled(s, i, Begin(low))
      ensures Acquires(Act(s, i, Begin(low)), i) <==> Own(s.queues[q], low) < s.queues[q].size
    {
      assert Enabled(s, i, Begin(low));
      BegunExactly(s, i, q, low);
    }
    hide Acquires, Act;
  }

  lemma BegunExactly(s: System, i: nat, q: nat, low: bool)
    requires Inv(s) && i < |s.threads| && q < |s.queues| && !s.queues[q].closed && s.threads[i].order == [q]
    requires Enabled(s, i, Begin(low)) && forall j :: 0 <= j < |s.threads| ==> s.threads[j].phase.Idle?
    ensures Acquires(Act(s, i, Begin(low)), i) <==> Own(s.queues[q], low) < s.queues[q].size
  {
    ActKeepsInv(s, i, Begin(low));
    var s' := Act(s, i, Begin(low));
    hide Inv, Acquires;
    assert q in s'.threads[i].order;
    AcquiresExactly(s', i);
  }

  /** One queue, a normal caller that waits for it, and a second caller. */
  function Pair(q: Queue, t: Thread): System {
    System([q], [Thread([0], false, Want(0)), t])
  }

  lemma PairStep(q: Queue, t: Thread, a: Action, q': Queue, t': Thread)
    requires ThreadOk(t, 1) && Offers(t, a) && Ready(q, t, a) && !a.Cancel?
    requires q' == (if Site(t, 1) == 0 then NextQueue(q, t, a) else q) && t' == Moved(t, a)
    ensures SoloStep(Pair(q, t), 1, Pair(q', t'))
  {
    hide NextQueue, Moved, Offers, Ready;
    var s := Pair(q, t);
    assert WellFormed(s) && Enabled(s, 1, a);
    assert Act(s, 1, a).threads == [s.threads[0], t'];
    assert Act(s, 1, a).queues == [q'];
  }

  /** What a low-priority caller does to a queue full of abandoned normal tokens. */
  function LowVisit(size: nat): seq<System>
    requires size > 0
  {
    var full := Queue(size, 0, size, 0, false, size, 0);
    [Pair(full, Thread([0], false, Idle)),
     Pair(full, Thread([0], true, Want(0))),
     Pair(full.(low := 1), Thread([0], true, Half(0))),
     Pair(full.(low := 1, global := 1), Thread([0], true, Working)),
     Pair(full.(low := 1, global := 1), Thread([0], true, Give([0]))),
     Pair(full.(low := 1), Thread([0], true, Try([0]))),
     Pair(full.(low := 1, normal := size - 1), Thread([0], true, Give([]))),
     Pair(full.(low := 1, normal := size - 1), Thread([0], true, Idle))]
  }

  lemma LowComes(q: Queue)
    requires q.low == 0 < q.size && q.global == 0
    ensures SoloStep(Pair(q, Thread([0], false, Idle)), 1, Pair(q, Thread([0], true, Want(0))))
    ensures SoloStep(Pair(q, Thread([0], true, Want(0))), 1, Pair(q.(low := 1), Thread([0], true, Half(0))))
    ensures SoloStep(Pair(q.(low := 1), Thread([0], true, Half(0))), 1,
                     Pair(q.(low := 1, global := 1), Thread([0], true, Working)))
  {
    hide SoloStep, Pair;
    PairStep(q, Thread([0], false, Idle), Begin(true), q, Thread([0], true, Want(0)));
    PairStep(q, Thread([0], true, Want(0)), SendPriority, q.(low := 1), Thread([0], true, Half(0)));
    PairStep(q.(low := 1), Thread([0], true, Half(0)), SendGlobal, q.(low := 1, global := 1), Thread([0], true, Working));
  }

  lemma LowGoes(q: Queue)
    requires q.global == 0 < q.normal
    ensures SoloStep(Pair(q.(global := 1), Thread([0], true, Working)), 1, Pair(q.(global := 1), Thread([0], true, Give([0]))))
    ensures SoloStep(Pair(q.(global := 1), Thread([0], true, Give([0]))), 1, Pair(q, Thread([0], true, Try([0]))))
  {
    var one: seq<nat> := [0];
    assert Reverse(one) == one;
    hide SoloStep, Pair, Reverse;
    PairStep(q.(global := 1), Thread(one, true, Working), Finish, q.(global := 1), Thread(one, true, Give(one)));
    PairStep(q.(global := 1), Thread(one, true, Give(one)), TakeGlobal, q, Thread(one, true, Try(one)));
  }

  lemma LowGone(q: Queue)
    requires 0 < q.normal
    ensures SoloStep(Pair(q, Thread([0], true, Try([0]))), 1, Pair(q.(normal := q.normal - 1), Thread([0], true, Give([]))))
    ensures SoloStep(Pair(q.(normal := q.normal - 1), Thread([0], true, Give([]))), 1,
                     Pair(q.(normal := q.normal - 1), Thread([0], true, Idle)))
  {
    hide SoloStep, Pair;
    var one: seq<nat> := [0];
    assert one[1..] == [];
    PairStep(q, Thread([0], true, Try(one)), TryNormal, q.(normal := q.normal - 1), Thread([0], true, Give([])));
    PairStep(q.(normal := q.normal - 1), Thread([0], true, Give([])), End, q.(normal := q.normal - 1), Thread([0], true, Idle));
  }

  lemma LowVisits(size: nat)
    requires size > 0
    ensures Solo(1, LowVisit(size))
  {
    hide SoloStep, Pair;
    var full := Queue(size, 0, size, 0, false, size, 0);
    LowComes(full);
    LowGoes(full.(low := 1));
    LowGone(full.(low := 1));
  }

  // An idle caller more does not disturb a run.

  function WithIdle(s: System, t: Thread): System {
    System(s.queues, s.threads + [t])
  }

  lemma IdleStep(s: System, s': System, t: Thread)
    requires Step(s, s') && t.phase == Idle && Distinct(t.order, |s.queues|)
    ensures Step(WithIdle(s, t), WithIdle(s', t))
  {
    hide Enabled, Act, Distinct;
    IdleFormed(s, t);
    hide WellFormed;
    if i: nat, a: Action :| i < |s.threads| && Enabled(s, i, a) && s' == Act(s, i, a) {
      IdleAct(s, i, a, t);
      ActIsStep(WithIdle(s, t), i, a);
    } else {
      var q: nat :| q < |s.queues| && s' == Close(s, q);
      assert WithIdle(s', t) == Close(WithIdle(s, t), q);
    }
  }

  lemma SameQueues(s: System, s': System)
    requires Step(s, s')
    ensures |s'.queues| == |s.queues|
  {
    hide Enabled, Act;
  }

  lemma IdleFormed(s: System, t: Thread)
    requires WellFormed(s) && t.phase == Idle && Distinct(t.order, |s.queues|)
    ensures WellFormed(WithIdle(s, t))
  {
    hide Distinct;
  }

  lemma IdleAct(s: System, i: nat, a: Action, t: Thread)
    requires WellFormed(s) && WellFormed(WithIdle(s, t)) && i < |s.threads| && Enabled(s, i, a)
    ensures Enabled(WithIdle(s, t), i, a) && Act(WithIdle(s, t), i, a) == WithIdle(Act(s, i, a), t)
  {
    hide NextQueue, Moved, Offers, Ready, WellFormed;
    assert WithIdle(s, t).threads[i] == s.threads[i];
    assert (s.threads + [t])[i := Moved(s.threads[i], a)] == s.threads[i := Moved(s.threads[i], a)] + [t];
  }

  lemma {:induction false} IdleRun(states: seq<System>, t: Thread) returns (more: seq<System>)
    requires Run(states) && t.phase == Idle && Distinct(t.order, |states[|states| - 1].queues|)
    ensures Run(more) && |more| == |states| && more[|more| - 1] == WithIdle(states[|states| - 1], t)
    decreases |states|
  {
    hide Distinct, Step;
    var n := |states| - 1;
    if n == 0 {
      IdleFormed(states[0], t);
      hide WellFormed;
      more := [WithIdle(states[0], t)];
    } else {
      assert Step(states[n - 1], states[n - 1 + 1]);
      SameQueues(states[n - 1], states[n]);
      var before := IdleRun(states[..n], t);
      IdleStep(states[n - 1], states[n], t);
      more := before + [WithIdle(states[n], t)];
    }
  }

  /**
   Runs lead to a queue full of abandoned normal tokens with a normal caller blocked before it. A
   low-priority caller that then comes and goes takes one of them with it, and so lets it in.
   */
  lemma LowReleaseFrees(size: nat) returns (states: seq<System>)
    requires size > 0
    ensures Run(states) && states[|states| - 1] == LowVisit(size)[0] && Solo(1, LowVisit(size))
    ensures WellFormed(LowVisit(size)[0]) && Blocked(LowVisit(size)[0], 0)
    ensures WellFormed(LowVisit(size)[7]) && !Blocked(LowVisit(size)[7], 0)
  {
    var wedged := CancellationsWedge(size);
    states := IdleRun(wedged, Thread([0], false, Idle));
    LowVisits(size);
    hide Solo, Run;
    assert Enabled(LowVisit(size)[7], 0, SendPriority);
  }
}
