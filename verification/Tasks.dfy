/**
 initramfs/pid1/main.go and tasks.go: init tasks with dependencies. The main goroutine walks the
 dependencies of the target and hands every task to the queue, which blocks until its
 dependencies are done and then runs it on a goroutine of its own.
 */
module Tasks {
  import Graph

  type Task = string

  /** What each task runs after. */
  type Table = Graph.Graph

  // ----- The order in which tasks are handed to the queue -----

  predicate NoDuplicates(order: seq<Task>) {
    forall i, j :: 0 <= i < j < |order| ==> order[i] != order[j]
  }

  predicate DependenciesFirst(table: Table, order: seq<Task>) {
    forall i :: 0 <= i < |order| ==>
                  order[i] in table && forall d :: d in table[order[i]] ==> d in order[..i]
  }

  /** Without such ranks the table has a cycle and the walk does not return. */
  ghost predicate Ranked(table: Table, rank: Task -> nat) {
    forall t, d :: t in table && d in table[t] ==> rank(d) < rank(t)
  }

  ghost predicate Walked(table: Table, order: seq<Task>) {
    NoDuplicates(order) && DependenciesFirst(table, order)
  }

  lemma Appended(table: Table, order: seq<Task>, t: Task)
    requires Walked(table, order)
    requires t in table && t !in order && forall d :: d in table[t] ==> d in order
    ensures Walked(table, order + [t])
  {
    var longer := order + [t];
    forall i | 0 <= i < |longer|
      ensures longer[i] in table && forall d :: d in table[longer[i]] ==> d in longer[..i]
    {
      assert longer[..i] == order[..i];
      if i == |order| {
        assert order[..i] == order;
      }
    }
  }

  /** The order was extended by tasks that t reaches, of ranks below the bound. */
  ghost predicate Grown(table: Table, rank: Task -> nat, t: Task, bound: nat, before: seq<Task>, after: seq<Task>) {
    && |before| <= |after| && before == after[..|before|]
    && forall i :: |before| <= i < |after| ==> Graph.Reachable(table, t, after[i]) && rank(after[i]) < bound
  }

  lemma GrownBy(table: Table, rank: Task -> nat, t: Task, dep: Task,
                before: seq<Task>, mid: seq<Task>, after: seq<Task>)
    requires Ranked(table, rank) && t in table && dep in table[t]
    requires Grown(table, rank, t, rank(t), before, mid) && Grown(table, rank, dep, rank(dep) + 1, mid, after)
    ensures Grown(table, rank, t, rank(t), before, after)
    ensures forall d :: d in mid ==> d in after
  {
    hide Graph.Reachable;
    forall i | |before| <= i < |after|
      ensures Graph.Reachable(table, t, after[i]) && rank(after[i]) < rank(t)
    {
      if i < |mid| {
        assert after[i] == mid[i];
      } else {
        Graph.ReachThrough(table, t, dep, after[i]);
      }
    }
  }

  lemma GrownLast(table: Table, rank: Task -> nat, t: Task, before: seq<Task>, after: seq<Task>)
    requires t !in before && Grown(table, rank, t, rank(t), before, after)
    ensures t !in after && Grown(table, rank, t, rank(t) + 1, before, after + [t])
  {
    Graph.ReachSelf(table, t);
    hide Graph.Reachable;
    forall i | 0 <= i < |after|
      ensures after[i] != t
    {
      assert i < |before| ==> after[i] == before[i];
    }
  }

  class Init {
    const table: Table
    var order: seq<Task>

    constructor (table: Table)
      ensures this.table == table && order == []
    {
      this.table, order := table, [];
    }

    /**
     start: a task counts as started once it is in the order. Everything reachable from it
     gets started after its own dependencies; a name that is not in the table is a panic.
     */
    method Start(t: Task, ghost rank: Task -> nat) returns (ok: bool)
      requires Walked(table, order) && Ranked(table, rank)
      modifies this
      ensures Walked(table, order) && Grown(table, rank, t, rank(t) + 1, old(order), order)
      ensures ok ==> t in order
      ensures ok && t !in old(order) ==> order[|order| - 1] == t
      ensures !ok ==> exists a :: a !in table && Graph.Reachable(table, t, a)
      decreases rank(t)
    {
      Graph.ReachSelf(table, t);
      if t !in table {
        return false;
      }
      if t in order {
        return true;
      }
      ghost var before := order;
      for i := 0 to |table[t]|
        invariant Walked(table, order) && Grown(table, rank, t, rank(t), before, order)
        invariant forall d :: d in table[t][..i] ==> d in order
      {
        hide Graph.Reachable, Walked, Grown;
        ghost var mid := order;
        var dep := table[t][i];
        ok := Start(dep, rank);
        GrownBy(table, rank, t, dep, before, mid, order);
        if !ok {
          ghost var a :| a !in table && Graph.Reachable(table, dep, a);
          Graph.ReachThrough(table, t, dep, a);
          GrownMore(table, rank, t, before, order);
          return false;
        }
        assert table[t][..i + 1] == table[t][..i] + [dep];
      }
      hide Graph.Reachable, Walked, Grown;
      assert table[t][..|table[t]|] == table[t];
      GrownLast(table, rank, t, before, order);
      Appended(table, order, t);
      order := order + [t];
      return true;
    }
  }

  lemma GrownMore(table: Table, rank: Task -> nat, t: Task, before: seq<Task>, after: seq<Task>)
    requires Grown(table, rank, t, rank(t), before, after)
    ensures Grown(table, rank, t, rank(t) + 1, before, after)
  {
  }

  /** A walk for a target: exactly what the target reaches, each once, dependencies first, the target last. */
  ghost predicate Plan(table: Table, target: Task, order: seq<Task>) {
    && Walked(table, order)
    && order != [] && order[|order| - 1] == target
    && forall t :: t in order <==> Graph.Reachable(table, target, t)
  }

  lemma WalkedClosed(table: Table, order: seq<Task>)
    requires Walked(table, order)
    ensures Graph.Closed(table, set t | t in order)
  {
    forall t | t in order
      ensures t in table && forall d :: d in table[t] ==> d in order
    {
      var i :| 0 <= i < |order| && order[i] == t;
    }
  }

  /** The walk for a target succeeds exactly when everything reachable is in the table, and gives a plan. */
  method Walk(table: Table, target: Task, ghost rank: Task -> nat) returns (ok: bool, order: seq<Task>)
    requires Ranked(table, rank)
    ensures ok <==> forall t :: Graph.Reachable(table, target, t) ==> t in table
    ensures ok ==> Plan(table, target, order)
  {
    var init := new Init(table);
    ok := init.Start(target, rank);
    order := init.order;
    if ok {
      assert forall t :: t in order ==> Graph.Reachable(table, target, t);
      WalkedClosed(table, order);
      ghost var started := set x | x in order;
      forall t | Graph.Reachable(table, target, t)
        ensures t in order && t in table
      {
        Graph.ClosedContains(table, started, target, t);
      }
    }
  }

  // ----- Running a plan -----

  /**
   next and waited say where the main goroutine is: handing order[next] to the queue, having seen
   that many of its dependencies done. closed lists the done channels in the order they were
   closed.
   */
  datatype State = State(next: nat, waited: nat, running: set<Task>, closed: seq<Task>, failed: set<Task>, reached: bool)

  datatype Action =
    | WaitOne
    | Launch
    | Finish(task: Task, ok: bool)
    | Reach

  const START := State(0, 0, {}, [], {}, false)

  predicate Enabled(table: Table, order: seq<Task>, s: State, a: Action) {
    match a
    case WaitOne =>
      && s.next < |order| && order[s.next] in table
      && s.waited < |table[order[s.next]]| && table[order[s.next]][s.waited] in s.closed
    case Launch => s.next < |order| && order[s.next] in table && s.waited == |table[order[s.next]]|
    case Finish(t, _) => t in s.running
    case Reach => !s.reached && order != [] && s.next == |order| && order[|order| - 1] in s.closed
  }

  function Act(table: Table, order: seq<Task>, s: State, a: Action): State
    requires Enabled(table, order, s, a)
  {
    match a
    case WaitOne => s.(waited := s.waited + 1)
    case Launch =>
      var t := order[s.next];
      s.(next := s.next + 1, waited := 0, running := if t in s.closed then s.running else s.running + {t})
    case Finish(t, ok) =>
      if ok then s.(running := s.running - {t}, closed := s.closed + [t])
      else s.(running := s.running - {t}, failed := s.failed + {t})
    case Reach => s.(reached := true)
  }

  ghost predicate Step(table: Table, order: seq<Task>, s: State, s': State) {
    exists a :: Enabled(table, order, s, a) && s' == Act(table, order, s, a)
  }

  ghost predicate Run(table: Table, order: seq<Task>, states: seq<State>) {
    && states != [] && states[0] == START
    && forall i :: 0 <= i < |states| - 1 ==> Step(table, order, states[i], states[i + 1])
  }

  ghost predicate Stuck(table: Table, order: seq<Task>, s: State) {
    forall a :: !Enabled(table, order, s, a)
  }

  predicate Started(order: seq<Task>, s: State, t: Task)
    requires s.next <= |order|
  {
    t in order[..s.next]
  }

  /** Every task handed to the queue is running, done or failed, and only one of them. */
  ghost predicate Accounted(order: seq<Task>, s: State)
    requires s.next <= |order|
  {
    && (forall t :: t in order[..s.next] <==> t in s.running || t in s.closed || t in s.failed)
    && (forall t :: t in s.closed ==> t !in s.running && t !in s.failed)
    && s.running !! s.failed
    && NoDuplicates(s.closed)
  }

  predicate Ordered(table: Table, order: seq<Task>, s: State)
    requires s.next <= |order|
  {
    && (forall t :: t in order[..s.next] ==> t in table && forall d :: d in table[t] ==> d in s.closed)
    && (s.next == |order| ==> s.waited == 0)
    && (s.next < |order| ==>
          && order[s.next] in table && s.waited <= |table[order[s.next]]|
          && forall d :: d in table[order[s.next]][..s.waited] ==> d in s.closed)
    && (s.reached ==> order != [] && s.next == |order| && order[|order| - 1] in s.closed)
  }

  ghost predicate Inv(table: Table, order: seq<Task>, s: State) {
    s.next <= |order| && Accounted(order, s) && Ordered(table, order, s)
  }

  lemma AccountedKept(table: Table, order: seq<Task>, s: State, a: Action)
    requires NoDuplicates(order) && s.next <= |order| && Accounted(order, s) && Enabled(table, order, s, a)
    ensures Act(table, order, s, a).next <= |order| && Accounted(order, Act(table, order, s, a))
  {
    if a.Launch? {
      assert order[..s.next + 1] == order[..s.next] + [order[s.next]];
    }
  }

  lemma OrderedKept(table: Table, order: seq<Task>, s: State, a: Action)
    requires Walked(table, order) && s.next <= |order| && Ordered(table, order, s) && Enabled(table, order, s, a)
    ensures Act(table, order, s, a).next <= |order| && Ordered(table, order, Act(table, order, s, a))
  {
    if a.Launch? {
      var deps := table[order[s.next]];
      assert deps[..|deps|] == deps;
      assert order[..s.next + 1] == order[..s.next] + [order[s.next]];
    } else if a.WaitOne? {
      var deps := table[order[s.next]];
      assert deps[..s.waited + 1] == deps[..s.waited] + [deps[s.waited]];
    }
  }

  lemma {:induction false} RunsKeepInv(table: Table, order: seq<Task>, states: seq<State>, i: nat)
    requires Walked(table, order) && Run(table, order, states) && i < |states|
    ensures Inv(table, order, states[i])
  {
    hide Accounted, Ordered, Walked, Enabled;
    if i == 0 {
      StartsInInv(table, order);
    } else {
      RunsKeepInv(table, order, states, i - 1);
      assert Step(table, order, states[i - 1], states[i - 1 + 1]);
      var a :| Enabled(table, order, states[i - 1], a) && states[i] == Act(table, order, states[i - 1], a);
      assert NoDuplicates(order) by { WalkedOnce(table, order); }
      AccountedKept(table, order, states[i - 1], a);
      OrderedKept(table, order, states[i - 1], a);
    }
  }

  lemma WalkedOnce(table: Table, order: seq<Task>)
    requires Walked(table, order)
    ensures NoDuplicates(order)
  {
  }

  lemma StartsInInv(table: Table, order: seq<Task>)
    requires Walked(table, order)
    ensures Inv(table, order, START)
  {
    assert order[..0] == [];
    if order != [] {
      assert table[order[0]][..0] == [];
    }
  }

  /** In every run a task starts only after everything it depends on, however indirectly, is done. */
  lemma DependenciesDone(table: Table, order: seq<Task>, states: seq<State>, i: nat, t: Task, d: Task)
    requires Walked(table, order) && Run(table, order, states) && i < |states|
    requires states[i].next <= |order| && Started(order, states[i], t)
    requires Graph.Reachable(table, t, d) && d != t
    ensures d in states[i].closed
  {
    RunsKeepInv(table, order, states, i);
    InvDependenciesDone(table, order, states[i], t, d);
  }

  lemma InvDependenciesDone(table: Table, order: seq<Task>, s: State, t: Task, d: Task)
    requires Inv(table, order, s) && Started(order, s, t) && Graph.Reachable(table, t, d) && d != t
    ensures d in s.closed
  {
    hide Graph.Reachable;
    var names := set x | x in s.closed + [t];
    forall x | x in names
      ensures x in table && forall y :: y in table[x] ==> y in names
    {
      assert x in order[..s.next];
    }
    Graph.ClosedContains(table, names, t, d);
  }

  /** In every run a failed task keeps everything that depends on it from starting. */
  lemma FailureBlocks(table: Table, order: seq<Task>, states: seq<State>, i: nat, f: Task, t: Task)
    requires Walked(table, order) && Run(table, order, states) && i < |states|
    requires f in states[i].failed && Graph.Reachable(table, t, f) && t != f
    ensures states[i].next <= |order| && !Started(order, states[i], t)
  {
    RunsKeepInv(table, order, states, i);
    if Started(order, states[i], t) {
      InvDependenciesDone(table, order, states[i], t, f);
    }
  }

  /** Tasks started, in order; no task twice, and no channel closed twice. */
  lemma OnceOnly(table: Table, order: seq<Task>, states: seq<State>, i: nat)
    requires Walked(table, order) && Run(table, order, states) && i < |states|
    ensures NoDuplicates(states[i].closed)
    ensures states[i].next < |order| ==>
              order[states[i].next] !in states[i].running && order[states[i].next] !in states[i].closed
              && order[states[i].next] !in states[i].failed
  {
    RunsKeepInv(table, order, states, i);
  }

  /** When the target is reached, everything it depends on is done and nothing failed. */
  lemma ReachedAllDone(table: Table, target: Task, order: seq<Task>, states: seq<State>, i: nat)
    requires Plan(table, target, order) && Run(table, order, states) && i < |states| && states[i].reached
    ensures states[i].failed == {} && states[i].running == {}
    ensures forall t :: Graph.Reachable(table, target, t) ==> t in states[i].closed
  {
    hide Graph.Reachable;
    var s := states[i];
    RunsKeepInv(table, order, states, i);
    assert order[..s.next] == order;
    forall t | t in order
      ensures t in s.closed
    {
      if t != target {
        InvDependenciesDone(table, order, s, target, t);
      }
    }
    assert forall t :: t in s.failed || t in s.running ==> t in order;
  }

  /** As long as nothing failed and the target is not reached, something can happen. */
  lemma Progress(table: Table, order: seq<Task>, s: State) returns (a: Action)
    requires Walked(table, order) && order != [] && Inv(table, order, s)
    requires s.failed == {} && !s.reached
    ensures Enabled(table, order, s, a)
  {
    if s.running != {} {
      var t :| t in s.running;
      a := Finish(t, true);
    } else if s.next < |order| {
      var deps := table[order[s.next]];
      if s.waited == |deps| {
        a := Launch;
      } else {
        a := WaitOne;
        assert deps[s.waited] in order[..s.next];
      }
    } else {
      a := Reach;
      assert order[..s.next] == order;
    }
  }

  /** A run that cannot go on has reached its target exactly when no task failed. */
  lemma StuckExactlyOnFailure(table: Table, target: Task, order: seq<Task>, states: seq<State>)
    requires Plan(table, target, order) && Run(table, order, states)
    requires Stuck(table, order, states[|states| - 1])
    ensures states[|states| - 1].reached <==> states[|states| - 1].failed == {}
  {
    hide Inv, Enabled;
    var s := states[|states| - 1];
    RunsKeepInv(table, order, states, |states| - 1);
    if s.reached {
      ReachedAllDone(table, target, order, states, |states| - 1);
    } else if s.failed == {} {
      var a := Progress(table, order, s);
      assert false;
    }
  }

  /**
   Where a failure stops the main goroutine: at the first task that directly depends on a failed
   one. Nothing after it in the order is started, whether it depends on the failure or not.
   */
  lemma StuckAtFirstDependent(table: Table, target: Task, order: seq<Task>, states: seq<State>, s: State)
    requires Plan(table, target, order) && Run(table, order, states) && s == states[|states| - 1]
    requires Stuck(table, order, s) && !s.reached
    ensures s.next <= |order|
    ensures s.running == {}
    ensures s.next == |order| ==> target in s.failed
    ensures s.next < |order| ==> exists d :: d in table[order[s.next]] && d in s.failed
    ensures forall t :: t in order[..s.next] ==> forall d :: d in table[t] ==> d !in s.failed
  {
    RunsKeepInv(table, order, states, |states| - 1);
    if s.running != {} {
      var t :| t in s.running;
      assert Enabled(table, order, s, Finish(t, true));
    }
    assert !Enabled(table, order, s, Reach) && !Enabled(table, order, s, Launch) && !Enabled(table, order, s, WaitOne);
    if s.next == |order| {
      assert target in order[..s.next];
    } else {
      var d := table[order[s.next]][s.waited];
      assert d in order[..s.next];
    }
  }

  ghost predicate Affected(table: Table, s: State, t: Task) {
    exists f :: f in s.failed && Graph.Reachable(table, t, f)
  }

  /**
   A run stopped by failures has done everything that does not depend on them if and only if all
   it has not started depends on them.
   */
  lemma IndependentsDone(table: Table, target: Task, order: seq<Task>, states: seq<State>, s: State)
    requires Plan(table, target, order) && Run(table, order, states) && s == states[|states| - 1]
    requires Stuck(table, order, s) && !s.reached
    ensures (forall t :: t in order && !Affected(table, s, t) ==> t in s.closed) <==>
            (forall k :: s.next <= k < |order| ==> Affected(table, s, order[k]))
  {
    RunsKeepInv(table, order, states, |states| - 1);
    StuckAtFirstDependent(table, target, order, states, s);
    hide Graph.Reachable, Stuck, Run;
    forall t | t in order
      ensures t in s.closed || Affected(table, s, t) || exists k :: s.next <= k < |order| && order[k] == t
    {
      var k :| 0 <= k < |order| && order[k] == t;
      if k < s.next {
        assert t in order[..s.next];
        Graph.ReachSelf(table, t);
      }
    }
    forall k | s.next <= k < |order|
      ensures order[k] !in s.closed
    {
      assert order[k] !in order[..s.next];
    }
  }

  // ----- Plans that confine failures -----

  /** From the first direct dependent of a task on, everything in the order depends on it. */
  ghost predicate Confined(table: Table, order: seq<Task>) {
    forall f, k, j :: 0 <= k <= j < |order| && order[k] in table && f in table[order[k]] ==>
                        Graph.Reachable(table, order[j], f)
  }

  /** The run has come to its end in a state without having reached the target. */
  ghost predicate EndsIn(table: Table, order: seq<Task>, states: seq<State>, s: State) {
    Run(table, order, states) && s == states[|states| - 1] && Stuck(table, order, s) && !s.reached
  }

  /** All that does not depend on a failure is done. */
  ghost predicate OthersDone(table: Table, order: seq<Task>, s: State) {
    forall t :: t in order && !Affected(table, s, t) ==> t in s.closed
  }

  /** Whatever fails, in every run. */
  ghost predicate Harmless(table: Table, order: seq<Task>) {
    forall states, s :: EndsIn(table, order, states, s) ==> OthersDone(table, order, s)
  }

  /** Failures keep nothing else from being done, in any run, if and only if the plan confines them. */
  lemma HarmlessExactly(table: Table, target: Task, order: seq<Task>)
    requires Plan(table, target, order)
    ensures Harmless(table, order) <==> Confined(table, order)
  {
    hide Plan, EndsIn, OthersDone, Graph.Reachable;
    if Confined(table, order) {
      forall states, s | EndsIn(table, order, states, s)
        ensures OthersDone(table, order, s)
      {
        ConfinedSuffices(table, target, order, states, s);
      }
    } else {
      var f, k, j :| 0 <= k <= j < |order| && order[k] in table && f in table[order[k]]
                     && !Graph.Reachable(table, order[j], f);
      PlanWalked(table, target, order);
      var states, s := OnlyFails(table, order, f, k, j);
    }
  }

  lemma PlanWalked(table: Table, target: Task, order: seq<Task>)
    requires Plan(table, target, order)
    ensures Walked(table, order)
  {
  }

  lemma ConfinedSuffices(table: Table, target: Task, order: seq<Task>, states: seq<State>, s: State)
    requires Plan(table, target, order) && Confined(table, order) && EndsIn(table, order, states, s)
    ensures OthersDone(table, order, s)
  {
    RunsKeepInv(table, order, states, |states| - 1);
    StuckAtFirstDependent(table, target, order, states, s);
    IndependentsDone(table, target, order, states, s);
    hide Plan, Run, Stuck, Graph.Reachable;
    if s.next < |order| {
      var d :| d in table[order[s.next]] && d in s.failed;
      forall j | s.next <= j < |order|
        ensures Affected(table, s, order[j])
      {
        assert Graph.Reachable(table, order[j], d);
      }
    }
  }

  ghost predicate Path(table: Table, order: seq<Task>, states: seq<State>) {
    states != [] && forall i :: 0 <= i < |states| - 1 ==> Step(table, order, states[i], states[i + 1])
  }

  lemma PathJoin(table: Table, order: seq<Task>, a: seq<State>, b: seq<State>)
    requires Path(table, order, a) && Path(table, order, b) && a[|a| - 1] == b[0]
    ensures Path(table, order, a + b[1..])
    ensures (a + b[1..])[|a + b[1..]| - 1] == b[|b| - 1] && (a + b[1..])[0] == a[0]
  {
    hide Step;
    var c := a + b[1..];
    forall i | 0 <= i < |c| - 1
      ensures Step(table, order, c[i], c[i + 1])
    {
      if i < |a| - 1 {
        assert Step(table, order, a[i], a[i + 1]);
      } else {
        var k := i - (|a| - 1);
        assert c[i] == b[k] && c[i + 1] == b[k + 1];
        assert Step(table, order, b[k], b[k + 1]);
      }
    }
  }

  lemma ActPath(table: Table, order: seq<Task>, s: State, a: Action) returns (states: seq<State>)
    requires Enabled(table, order, s, a)
    ensures Path(table, order, states) && states[0] == s && states[|states| - 1] == Act(table, order, s, a)
  {
    states := [s, Act(table, order, s, a)];
    assert Step(table, order, s, Act(table, order, s, a));
  }

  /** Seeing the first n dependencies done, one after the other. */
  lemma {:induction false} WaitPath(table: Table, order: seq<Task>, s: State, n: nat) returns (states: seq<State>)
    requires s.next < |order| && order[s.next] in table && s.waited == 0 && n <= |table[order[s.next]]|
    requires forall d :: d in table[order[s.next]][..n] ==> d in s.closed
    ensures Path(table, order, states) && states[0] == s && states[|states| - 1] == s.(waited := n)
  {
    if n == 0 {
      states := [s];
    } else {
      var deps := table[order[s.next]];
      assert deps[..n] == deps[..n - 1] + [deps[n - 1]];
      var before := WaitPath(table, order, s, n - 1);
      var last := ActPath(table, order, s.(waited := n - 1), WaitOne);
      hide Path;
      PathJoin(table, order, before, last);
      states := before + last[1..];
    }
  }

  function Without(tasks: seq<Task>, f: Task): seq<Task> {
    if tasks == [] then []
    else Without(tasks[..|tasks| - 1], f) + if tasks[|tasks| - 1] == f then [] else [tasks[|tasks| - 1]]
  }

  lemma {:induction false} WithoutHas(tasks: seq<Task>, f: Task, t: Task)
    ensures t in Without(tasks, f) <==> t in tasks && t != f
  {
    if tasks != [] {
      WithoutHas(tasks[..|tasks| - 1], f, t);
      assert tasks == tasks[..|tasks| - 1] + [tasks[|tasks| - 1]];
    }
  }

  /** The first i tasks were run one after the other, and only f failed. */
  function Only(order: seq<Task>, i: nat, f: Task): State
    requires i <= |order|
  {
    State(i, 0, {}, Without(order[..i], f), if f in order[..i] then {f} else {}, false)
  }

  lemma OnlyNext(order: seq<Task>, i: nat, f: Task)
    requires i < |order| && order[i] !in order[..i]
    ensures
      var s, t, s' := Only(order, i, f), order[i], Only(order, i + 1, f);
      && s'.closed == (if t == f then s.closed else s.closed + [t])
      && s'.failed == (if t == f then s.failed + {t} else s.failed)
  {
    assert order[..i + 1] == order[..i] + [order[i]];
    assert order[..i + 1][..i] == order[..i];
  }

  lemma NotBefore(table: Table, order: seq<Task>, i: nat)
    requires Walked(table, order) && i < |order|
    ensures order[i] in table && order[i] !in order[..i]
    ensures forall d :: d in table[order[i]] ==> d in order[..i]
  {
  }

  lemma OneMorePath(table: Table, order: seq<Task>, i: nat, f: Task) returns (states: seq<State>)
    requires Walked(table, order) && i < |order| && order[i] in table && f !in table[order[i]]
    ensures Path(table, order, states) && states[0] == Only(order, i, f)
    ensures states[|states| - 1] == Only(order, i + 1, f)
  {
    NotBefore(table, order, i);
    OnlyNext(order, i, f);
    var s, t := Only(order, i, f), order[i];
    var deps := table[t];
    forall d | d in deps[..|deps|]
      ensures d in s.closed
    {
      WithoutHas(order[..i], f, d);
    }
    WithoutHas(order[..i], f, t);
    hide Path, Walked, Without;
    var waits := WaitPath(table, order, s, |deps|);
    var launch := ActPath(table, order, s.(waited := |deps|), Launch);
    var running := launch[|launch| - 1];
    assert running == s.(next := i + 1, running := {t});
    var finish := ActPath(table, order, running, Finish(t, t != f));
    assert finish[|finish| - 1] == Only(order, i + 1, f);
    PathJoin(table, order, waits, launch);
    PathJoin(table, order, waits + launch[1..], finish);
    states := waits + launch[1..] + finish[1..];
  }

  lemma {:induction false} OnlyPath(table: Table, order: seq<Task>, i: nat, f: Task) returns (states: seq<State>)
    requires Walked(table, order) && i <= |order|
    requires forall k :: 0 <= k < i ==> order[k] in table && f !in table[order[k]]
    ensures Path(table, order, states) && states[0] == START && states[|states| - 1] == Only(order, i, f)
    decreases i
  {
    if i == 0 {
      assert order[..0] == [];
      states := [START];
    } else {
      hide Path, Walked, Only;
      var before := OnlyPath(table, order, i - 1, f);
      var more := OneMorePath(table, order, i - 1, f);
      PathJoin(table, order, before, more);
      states := before + more[1..];
    }
  }

  lemma {:induction false} FirstDependent(table: Table, order: seq<Task>, f: Task, k: nat) returns (first: nat)
    requires k < |order| && order[k] in table && f in table[order[k]]
    ensures first <= k && order[first] in table && f in table[order[first]]
    ensures forall i :: 0 <= i < first ==> order[i] !in table || f !in table[order[i]]
    decreases k
  {
    if i :| 0 <= i < k && order[i] in table && f in table[order[i]] {
      first := FirstDependent(table, order, f, i);
    } else {
      first := k;
    }
  }

  lemma {:induction false} FirstPlace(deps: seq<Task>, f: Task) returns (p: nat)
    requires f in deps
    ensures p < |deps| && deps[p] == f && f !in deps[..p]
  {
    if deps[0] == f {
      p := 0;
    } else {
      p := FirstPlace(deps[1..], f);
      p := p + 1;
      assert deps[..p] == [deps[0]] + deps[1..][..p - 1];
    }
  }

  /** Waiting for f, with everything before it done, nothing can happen any more. */
  lemma OnlyStuck(table: Table, order: seq<Task>, i: nat, p: nat, f: Task)
    requires i < |order| && order[i] in table && p < |table[order[i]]| && table[order[i]][p] == f
    ensures Stuck(table, order, Only(order, i, f).(waited := p))
  {
    WithoutHas(order[..i], f, f);
    hide Without;
  }

  lemma OnlyOthersNot(table: Table, order: seq<Task>, i: nat, p: nat, f: Task, j: nat)
    requires NoDuplicates(order) && i <= j < |order| && !Graph.Reachable(table, order[j], f)
    ensures !OthersDone(table, order, Only(order, i, f).(waited := p))
  {
    WithoutHas(order[..i], f, order[j]);
    hide Without, Graph.Reachable;
    var s := Only(order, i, f).(waited := p);
    assert order[j] !in order[..i];
    assert order[j] in order && !Affected(table, s, order[j]);
  }

  lemma OnlyDone(table: Table, order: seq<Task>, i: nat, p: nat, f: Task)
    requires Walked(table, order) && i < |order| && order[i] in table && p <= |table[order[i]]|
    requires f !in table[order[i]][..p]
    ensures forall d :: d in table[order[i]][..p] ==> d in Only(order, i, f).closed
  {
    NotBefore(table, order, i);
    hide Walked, Without;
    forall d | d in table[order[i]][..p]
      ensures d in Only(order, i, f).closed
    {
      WithoutHas(order[..i], f, d);
    }
  }

  /** A run in which f alone fails ends before a task that comes later and does not depend on f. */
  lemma OnlyFails(table: Table, order: seq<Task>, f: Task, k: nat, j: nat) returns (states: seq<State>, s: State)
    requires Walked(table, order) && k <= j < |order| && order[k] in table && f in table[order[k]]
    requires !Graph.Reachable(table, order[j], f)
    ensures EndsIn(table, order, states, s) && !OthersDone(table, order, s)
  {
    var first := FirstDependent(table, order, f, k);
    assert forall i :: 0 <= i < first ==> order[i] in table;
    assert NoDuplicates(order);
    hide Path, Walked, Without, Graph.Reachable, Stuck, OthersDone, NoDuplicates;
    var to := OnlyPath(table, order, first, f);
    var p := FirstPlace(table[order[first]], f);
    OnlyDone(table, order, first, p, f);
    OnlyStuck(table, order, first, p, f);
    OnlyOthersNot(table, order, first, p, f, j);
    var waits := WaitPath(table, order, Only(order, first, f), p);
    PathJoin(table, order, to, waits);
    states, s := to + waits[1..], Only(order, first, f).(waited := p);
    PathRuns(table, order, states);
  }

  lemma PathRuns(table: Table, order: seq<Task>, states: seq<State>)
    requires Path(table, order, states) && states[0] == START
    ensures Run(table, order, states)
  {
  }

  const EXAMPLE: Table := map["a" := [], "b" := ["a"], "c" := [], "t" := ["b", "c"]]
  const EXAMPLE_ORDER := ["a", "b", "c", "t"]

  lemma ExampleWalked()
    ensures Walked(EXAMPLE, EXAMPLE_ORDER)
  {
    var o := EXAMPLE_ORDER;
    assert o[..1] == ["a"] && o[..3] == ["a", "b", "c"];
  }

  lemma ExampleReached()
    ensures Graph.Reachable(EXAMPLE, "t", "a") && Graph.Reachable(EXAMPLE, "t", "b")
    ensures Graph.Reachable(EXAMPLE, "t", "c") && Graph.Reachable(EXAMPLE, "t", "t")
  {
    hide Graph.Reachable;
    Graph.ReachSelf(EXAMPLE, "a");
    Graph.ReachSelf(EXAMPLE, "b");
    Graph.ReachSelf(EXAMPLE, "c");
    Graph.ReachSelf(EXAMPLE, "t");
    Graph.ReachThrough(EXAMPLE, "b", "a", "a");
    Graph.ReachThrough(EXAMPLE, "t", "b", "a");
    Graph.ReachThrough(EXAMPLE, "t", "b", "b");
    Graph.ReachThrough(EXAMPLE, "t", "c", "c");
  }

  lemma ExamplePlan()
    ensures Plan(EXAMPLE, "t", EXAMPLE_ORDER)
  {
    ExampleWalked();
    WalkedClosed(EXAMPLE, EXAMPLE_ORDER);
    hide Walked, Graph.Closed, Graph.Reachable;
    ExampleReached();
    var names := set x | x in EXAMPLE_ORDER;
    forall x | Graph.Reachable(EXAMPLE, "t", x)
      ensures x in EXAMPLE_ORDER
    {
      Graph.ClosedContains(EXAMPLE, names, "t", x);
    }
  }

  lemma ExampleIndependent()
    ensures !Graph.Reachable(EXAMPLE, "c", "a")
  {
    if Graph.Reachable(EXAMPLE, "c", "a") {
      Graph.ClosedContains(EXAMPLE, {"c"}, "c", "a");
    }
  }

  /** A run in which a failed task keeps one from starting that does not depend on it. */
  lemma FailureBlocksIndependent() returns (states: seq<State>)
    ensures Plan(EXAMPLE, "t", EXAMPLE_ORDER) && Run(EXAMPLE, EXAMPLE_ORDER, states)
    ensures
      var s := states[|states| - 1];
      && Stuck(EXAMPLE, EXAMPLE_ORDER, s) && s.failed == {"a"} && !Graph.Reachable(EXAMPLE, "c", "a")
      && s.next <= |EXAMPLE_ORDER| && !Started(EXAMPLE_ORDER, s, "c")
  {
    ExamplePlan();
    ExampleIndependent();
    hide Plan, Graph.Reachable;
    assert Enabled(EXAMPLE, EXAMPLE_ORDER, START, Launch);
    var launched := Act(EXAMPLE, EXAMPLE_ORDER, START, Launch);
    assert Enabled(EXAMPLE, EXAMPLE_ORDER, launched, Finish("a", false));
    var last := Act(EXAMPLE, EXAMPLE_ORDER, launched, Finish("a", false));
    assert Step(EXAMPLE, EXAMPLE_ORDER, START, launched) && Step(EXAMPLE, EXAMPLE_ORDER, launched, last);
    states := [START, launched, last];
    assert last == State(1, 0, {}, [], {"a"}, false);
    assert EXAMPLE_ORDER[..1] == ["a"];
  }

  // ----- Every run ends -----

  function Work(table: Table, order: seq<Task>): nat {
    if order == [] then 0
    else 2 + (if order[0] in table then |table[order[0]]| else 0) + Work(table, order[1..])
  }

  function Remaining(table: Table, order: seq<Task>, s: State): int
    requires s.next <= |order|
  {
    Work(table, order[s.next..]) - s.waited + |s.running| + (if s.reached then 0 else 1)
  }

  lemma StepsUseUp(table: Table, order: seq<Task>, s: State, a: Action)
    requires s.next <= |order| && Enabled(table, order, s, a)
    ensures Act(table, order, s, a).next <= |order|
    ensures Remaining(table, order, Act(table, order, s, a)) < Remaining(table, order, s)
  {
    if a.Launch? {
      assert order[s.next..][1..] == order[s.next + 1..];
    }
  }

  lemma RemainingNatural(table: Table, order: seq<Task>, s: State)
    requires Inv(table, order, s)
    ensures Remaining(table, order, s) >= 0
  {
  }

  /** A run for n tasks with m dependencies between them has at most 2n + m + 1 steps. */
  lemma {:induction false} RunsEnd(table: Table, order: seq<Task>, states: seq<State>)
    requires Walked(table, order) && Run(table, order, states)
    ensures |states| <= Work(table, order) + 2
  {
    hide Work, Inv, Walked, Enabled;
    var n := |states| - 1;
    RunsKeepInv(table, order, states, n);
    RemainingNatural(table, order, states[n]);
    UsedUp(table, order, states, n);
    assert order[0..] == order;
  }

  lemma {:induction false} UsedUp(table: Table, order: seq<Task>, states: seq<State>, i: nat)
    requires Walked(table, order) && Run(table, order, states) && i < |states|
    ensures states[i].next <= |order|
    ensures Remaining(table, order, states[i]) + i <= Remaining(table, order, START)
  {
    hide Remaining, Walked, Enabled;
    if i > 0 {
      UsedUp(table, order, states, i - 1);
      assert Step(table, order, states[i - 1], states[i - 1 + 1]);
      var a :| Enabled(table, order, states[i - 1], a) && states[i] == Act(table, order, states[i - 1], a);
      StepsUseUp(table, order, states[i - 1], a);
    }
  }
}
