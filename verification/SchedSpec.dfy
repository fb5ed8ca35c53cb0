/** Dispatching as a state machine, and why the process at the front of the run queue
    does not wait forever. */
module SchedSpec {
  import Chains
  import opened FiniteSets

  const MASK: int := 0x8000_0000
  const DEFAULT_QUANTUM: int := 10
  const SCHED_SCALE: int := 100
  const START_PRI: int := 500            // NCRTICK * (100 / 2)
  const TOP_PRI: int := 1000             // no priority rises above it
  const TOP_SLEEP: int := 48             // prihi with the largest bias

  /** CLEAR_SIGN_BIT, for numbers that are not negative. */
  function ClearSign(x: int): (r: int)
    requires x >= 0
    ensures 0 <= r < MASK && (x < MASK ==> r == x)
  {
    x % MASK
  }

  /** `queue` lists the run queue in the order in which it is scanned.  While `running`,
      process `self` executes; otherwise it has given up the processor and another one is
      about to be chosen. */
  datatype State = State(queue: seq<int>, pri: seq<int>, food: seq<int>, self: int, running: bool)

  predicate Proc(s: State, x: int) {
    0 <= x < |s.pri|
  }

  // ----- the choice -----

  function Value(pri: seq<int>, food: seq<int>, x: int): int
    requires 0 <= x < |pri| == |food|
  {
    pri[x] + food[x]
  }

  predicate Scannable(q: seq<int>, pri: seq<int>, food: seq<int>) {
    |pri| == |food| && forall i :: 0 <= i < |q| ==> 0 <= q[i] < |pri|
  }

  /** The first of the first `n` places of the queue with the highest value. */
  function Best(q: seq<int>, pri: seq<int>, food: seq<int>, n: int): (b: int)
    requires Scannable(q, pri, food) && 1 <= n <= |q|
    ensures 0 <= b < n
    ensures forall i :: 0 <= i < n ==> Value(pri, food, q[i]) <= Value(pri, food, q[b])
    ensures forall i :: 0 <= i < b ==> Value(pri, food, q[i]) < Value(pri, food, q[b])
  {
    if n == 1 then 0
    else
      var b := Best(q, pri, food, n - 1);
      if Value(pri, food, q[n - 1]) > Value(pri, food, q[b]) then n - 1 else b
  }

  /** Whether place `i` takes the lead when the scan comes to it. */
  predicate TakesLead(q: seq<int>, pri: seq<int>, food: seq<int>, i: int)
    requires Scannable(q, pri, food) && 0 <= i < |q|
  {
    i > 0 && Value(pri, food, q[i]) > Value(pri, food, q[Best(q, pri, food, i)])
  }

  /** The stamps after the first `n` places have been scanned: who does not take the lead
      is fed, except the process that gives up the processor. */
  function Fed(q: seq<int>, pri: seq<int>, food: seq<int>, self: int, n: int): (r: seq<int>)
    requires Scannable(q, pri, food) && 0 <= n <= |q|
    ensures |r| == |food|
  {
    if n == 0 then food
    else
      var f := Fed(q, pri, food, self, n - 1);
      if TakesLead(q, pri, food, n - 1) || q[n - 1] == self then f else f[q[n - 1] := f[q[n - 1]] + 1]
  }

  // ----- steps -----

  function NewPriority(pri: int, quantum: int): (p: int)
    requires 0 <= pri && quantum <= DEFAULT_QUANTUM
    ensures 0 <= p && (pri <= TOP_PRI ==> p <= TOP_PRI)
  {
    var divisor := if quantum == DEFAULT_QUANTUM then 1 else DEFAULT_QUANTUM - quantum;
    ClearSign((DEFAULT_QUANTUM * SCHED_SCALE / divisor + pri) / 2)
  }

  /** What is left of the quantum may be negative: every tick takes one off, also in the
      kernel and while the machine idles, and only the return to user mode sets it to 0.

      Wake: a process joins the queue at its end.  Preempt: the running process does so and
      gives up the processor.  Sleep: it gives up the processor with a stamp that depends
      on the priority of the sleep; it may also end.  Fork: a new process takes over
      priority and stamp.  Exec: both are set anew.  Dispatch: a process is chosen. */
  datatype Action = Wake(x: int) | Preempt | Sleep(prio: int) | Exit | Fork(x: int) | Exec | Dispatch(quantum: int)

  ghost predicate Shape(s: State) {
    |s.food| == |s.pri| && Proc(s, s.self) && Chains.Distinct(s.queue) && forall i :: 0 <= i < |s.queue| ==>
        Proc(s, s.queue[i])
  }

  ghost predicate Allowed(s: State, a: Action) {
    && Shape(s)
    && match a
       case Wake(x) => Proc(s, x) && x !in s.queue && !(s.running && x == s.self)
       case Preempt => s.running && s.self !in s.queue
       case Sleep(prio) => s.running && 0 <= prio <= TOP_SLEEP && s.self !in s.queue
       case Exit => s.running && s.self !in s.queue
       case Fork(x) => s.running && Proc(s, x) && x !in s.queue && x != s.self
       case Exec => s.running
       case Dispatch(quantum) => !s.running && s.queue != [] && quantum <= DEFAULT_QUANTUM
  }

  ghost function Chosen(s: State): (x: int)
    requires Shape(s) && s.queue != []
    ensures Proc(s, x) && x in s.queue
  {
    s.queue[Best(s.queue, s.pri, s.food, |s.queue|)]
  }

  ghost function Step(s: State, a: Action): (s': State)
    requires Allowed(s, a) && forall x :: 0 <= x < |s.pri| ==> s.pri[x] >= 0
  {
    match a
    case Wake(x) => s.(queue := s.queue + [x])
    case Preempt => s.(queue := s.queue + [s.self], running := false)
    case Sleep(prio) => s.(food := s.food[s.self := s.food[s.self] + 8 * prio + 7], running := false)
    case Exit => s.(running := false)
    case Fork(x) => s.(queue := s.queue + [x], pri := s.pri[x := s.pri[s.self]], food := s.food[x := s.food[s.self]])
    case Exec => s.(pri := s.pri[s.self := START_PRI], food := s.food[s.self := 0])
    case Dispatch(quantum) =>
      var x := Chosen(s);
      State(Chains.Cut(s.queue, Best(s.queue, s.pri, s.food, |s.queue|)),
            s.pri[s.self := NewPriority(s.pri[s.self], quantum)],
            Fed(s.queue, s.pri, s.food, s.self, |s.queue|)[x := 0], x, true)
  }

  // ----- what every step keeps -----

  /** Priorities stay below the ceiling, stamps are not negative, and the running process
      has none. */
  ghost predicate Inv(s: State) {
    && Shape(s)
    && (forall x :: 0 <= x < |s.pri| ==> 0 <= s.pri[x] <= TOP_PRI && s.food[x] >= 0)
    && (s.running ==> s.self !in s.queue && s.food[s.self] == 0)
  }

  /** Who is not in the part of the queue that has been scanned keeps the stamp. */
  lemma {:induction false} NotFed(q: seq<int>, pri: seq<int>, food: seq<int>, self: int, n: int, x: int)
    requires Scannable(q, pri, food) && 0 <= n <= |q| && 0 <= x < |food|
    requires forall i :: 0 <= i < n ==> q[i] != x
    ensures Fed(q, pri, food, self, n)[x] == food[x]
  {
    hide TakesLead, Best;
    if n > 0 { NotFed(q, pri, food, self, n - 1, x); }
  }

  /** A scan feeds nobody more than once. */
  lemma {:induction false} FedBounds(q: seq<int>, pri: seq<int>, food: seq<int>, self: int, n: int, x: int)
    requires Scannable(q, pri, food) && 0 <= n <= |q| && 0 <= x < |food| && Chains.Distinct(q)
    ensures food[x] <= Fed(q, pri, food, self, n)[x] <= food[x] + 1
  {
    hide TakesLead, Best;
    if n > 0 {
      if q[n - 1] == x {
        NotFed(q, pri, food, self, n - 1, x);
      } else {
        FedBounds(q, pri, food, self, n - 1, x);
      }
    }
  }

  /** The front of the queue is fed whenever it is passed over. */
  lemma {:induction false} FrontIsFed(q: seq<int>, pri: seq<int>, food: seq<int>, self: int, n: int)
    requires Scannable(q, pri, food) && 1 <= n <= |q| && Chains.Distinct(q) && q[0] != self
    ensures Fed(q, pri, food, self, n)[q[0]] == food[q[0]] + 1
  {
    if n > 1 { FrontIsFed(q, pri, food, self, n - 1); }
  }

  lemma StepKeeps(s: State, a: Action)
    requires Inv(s) && Allowed(s, a)
    ensures Inv(Step(s, a)) && |Step(s, a).pri| == |s.pri|
  {
    hide Best, Fed, NewPriority;
    if a.Dispatch? { DispatchKeeps(s, a.quantum); }
  }

  lemma DispatchKeeps(s: State, quantum: int)
    requires Inv(s) && Allowed(s, Dispatch(quantum))
    ensures Inv(Step(s, Dispatch(quantum))) && |Step(s, Dispatch(quantum)).pri| == |s.pri|
  {
    hide Best, Fed, NewPriority;
    var s', b := Step(s, Dispatch(quantum)), Best(s.queue, s.pri, s.food, |s.queue|);
    forall x | 0 <= x < |s.food| ensures s'.food[x] >= 0 {
      FedBounds(s.queue, s.pri, s.food, s.self, |s.queue|, x);
    }
    forall i | 0 <= i < |s'.queue| ensures Proc(s, s'.queue[i]) {
      assert s'.queue[i] == if i < b then s.queue[i] else s.queue[i + 1];
    }
    Chains.CutKeeps(s.queue, b);
  }

  // ----- waiting at the front -----

  const BOOST: int := 8 * TOP_SLEEP + 7
  const SETTLED: int := TOP_PRI + BOOST

  /** Seen since process `f` came to the front: `k` dispatches, and for each process the
      number of the last one at which it was chosen or created, -1 if there was none. */
  datatype Watch = Watch(k: int, since: seq<int>)

  ghost function Watched(w: Watch, s: State, a: Action): Watch
    requires Allowed(s, a) && |w.since| == |s.pri|
  {
    match a
    case Dispatch(_) => Watch(w.k + 1, w.since[Chosen(s) := w.k + 1])
    case Fork(x) => Watch(w.k, w.since[x := w.k])
    case _ => w
  }

  /** Process `f` waits at the front, its stamp growing; stamps of the others have grown at
      most by one with each dispatch since they were chosen. */
  ghost predicate Waits(s: State, w: Watch, f: int) {
    && Inv(s) && |s.queue| > 0 && s.queue[0] == f && f != s.self
    && |w.since| == |s.pri| && w.k >= 0 && w.since[f] == -1 && s.food[f] >= w.k
    && (forall x :: 0 <= x < |s.pri| ==> -1 <= w.since[x] <= w.k)
    && (forall x :: 0 <= x < |s.pri| && w.since[x] >= 0 ==> s.food[x] <= BOOST + (w.k - w.since[x]))
  }

  /** Who is chosen although `f` waits was last chosen long ago. */
  lemma ChosenLongAgo(s: State, w: Watch, f: int)
    requires Waits(s, w, f) && Chosen(s) != f
    ensures w.since[Chosen(s)] < SETTLED
  {
    var b := Best(s.queue, s.pri, s.food, |s.queue|);
    assert Value(s.pri, s.food, s.queue[0]) < Value(s.pri, s.food, s.queue[b]);
  }

  lemma StepWaits(s: State, w: Watch, f: int, a: Action)
    requires Waits(s, w, f) && Allowed(s, a) && (a.Dispatch? ==> Chosen(s) != f)
    ensures Waits(Step(s, a), Watched(w, s, a), f)
  {
    hide Best, Fed, NewPriority;
    StepKeeps(s, a);
    if a.Dispatch? {
      FrontIsFed(s.queue, s.pri, s.food, s.self, |s.queue|);
      var b := Best(s.queue, s.pri, s.food, |s.queue|);
      assert b > 0;
      forall x | 0 <= x < |s.pri| ensures Fed(s.queue, s.pri, s.food, s.self, |s.queue|)[x] <= s.food[x] + 1 {
        FedBounds(s.queue, s.pri, s.food, s.self, |s.queue|, x);
      }
    }
  }

  /** Processes chosen after things have settled. */
  ghost function Late(w: Watch): set<int> {
    set x | 0 <= x < |w.since| && w.since[x] >= SETTLED
  }

  /** Once things have settled, every dispatch that passes `f` over chooses somebody for the
      first time. */
  ghost predicate Counted(w: Watch) {
    w.k < SETTLED || w.k - SETTLED < |Late(w)|
  }

  lemma StepCounts(s: State, w: Watch, f: int, a: Action)
    requires Waits(s, w, f) && Allowed(s, a) && (a.Dispatch? ==> Chosen(s) != f) && Counted(w)
    ensures Counted(Watched(w, s, a))
  {
    hide Best, Fed, Inv;
    var w' := Watched(w, s, a);
    if a.Dispatch? {
      ChosenLongAgo(s, w, f);
      var x := Chosen(s);
      if w'.k >= SETTLED {
        assert x !in Late(w) && Late(w') == Late(w) + {x};
      }
    } else if a.Fork? {
      assert a.x in Late(w) ==> w'.since[a.x] == w.k;
      LateGrows(w, w');
    }
  }

  lemma LateGrows(w: Watch, w': Watch)
    requires |w.since| == |w'.since| && forall x :: x in Late(w) ==> x in Late(w')
    ensures |Late(w)| <= |Late(w')|
  {
    SubsetIsSmaller(Late(w), Late(w'));
  }

  // ----- runs -----

  /** A run in which `f` is not chosen. */
  ghost predicate RunsWithout(s: State, run: seq<Action>, f: int)
    requires Inv(s)
    decreases |run|
  {
    run == [] || (Allowed(s, run[0]) && (run[0].Dispatch? ==> Chosen(s) != f)
        && (StepKeeps(s, run[0]); RunsWithout(Step(s, run[0]), run[1..], f)))
  }

  function Dispatches(run: seq<Action>): int {
    if run == [] then 0 else (if run[0].Dispatch? then 1 else 0) + Dispatches(run[1..])
  }

  lemma {:induction false} WaitIsCounted(s: State, w: Watch, f: int, run: seq<Action>)
    requires Waits(s, w, f) && Counted(w) && RunsWithout(s, run, f)
    ensures w.k + Dispatches(run) <= SETTLED + |s.pri|
    decreases |run|
  {
    if run == [] {
      BoundedSet(Late(w), |s.pri|);
    } else {
      StepKeeps(s, run[0]);
      StepWaits(s, w, f, run[0]);
      StepCounts(s, w, f, run[0]);
      WaitIsCounted(Step(s, run[0]), Watched(w, s, run[0]), f, run[1..]);
    }
  }

  /** Bounded waiting: once a process is at the front of the run queue and is not itself
      just giving up the processor, it is chosen within a fixed number of dispatches,
      whatever the other processes do: wake, sleep at any priority, fork, end. */
  lemma FrontIsChosen(s: State, f: int, run: seq<Action>)
    requires Inv(s) && |s.queue| > 0 && s.queue[0] == f && f != s.self && RunsWithout(s, run, f)
    ensures Dispatches(run) <= SETTLED + |s.pri|
  {
    var w := Watch(0, seq(|s.pri|, _ => -1));
    WaitIsCounted(s, w, f, run);
  }

  // ----- waiting anywhere in the queue -----

  /** The same for a process at the front that may itself be the one that is giving up the
      processor: it is not fed in that one dispatch. */
  lemma {:induction false} AnyFrontIsChosen(s: State, f: int, run: seq<Action>)
    requires Inv(s) && |s.queue| > 0 && s.queue[0] == f && RunsWithout(s, run, f)
    ensures Dispatches(run) <= SETTLED + |s.pri| + 1
    decreases |run|
  {
    if f != s.self {
      FrontIsChosen(s, f, run);
    } else if run != [] {
      StepKeeps(s, run[0]);
      FrontStays(s, f, run[0]);
      if run[0].Dispatch? {
        FrontIsChosen(Step(s, run[0]), f, run[1..]);
      } else {
        AnyFrontIsChosen(Step(s, run[0]), f, run[1..]);
      }
    }
  }

  /** The front of the queue stays there until it is chosen. */
  lemma FrontStays(s: State, f: int, a: Action)
    requires Inv(s) && Allowed(s, a) && |s.queue| > 0 && s.queue[0] == f && (a.Dispatch? ==> Chosen(s) != f)
    ensures var s' := Step(s, a); |s'.queue| > 0 && s'.queue[0] == f && (a.Dispatch? ==> s'.self != f)
  {
  }

  /** A process in the queue moves up or stays, unless it is chosen; it moves up when one
      before it is chosen. */
  lemma PlaceAfter(s: State, p: int, a: Action) returns (p': int)
    requires Inv(s) && Allowed(s, a) && 0 <= p < |s.queue| && (a.Dispatch? ==> Chosen(s) != s.queue[p])
    ensures 0 <= p' <= p && p' < |Step(s, a).queue| && Step(s, a).queue[p'] == s.queue[p]
    ensures p > 0 && a.Dispatch? && Chosen(s) == s.queue[0] ==> p' < p
  {
    p' := p;
    if a.Dispatch? {
      var b := Best(s.queue, s.pri, s.food, |s.queue|);
      if b < p { p' := p - 1; }
    }
  }

  /** How many dispatches can pass over a process with `p` others before it. */
  function Patience(procs: int, p: int): int {
    (p + 1) * (SETTLED + procs + 2)
  }

  lemma PatienceGrows(procs: int, p: int, q: int)
    requires 0 <= procs && 0 <= p < q
    ensures Patience(procs, p) + SETTLED + procs + 2 <= Patience(procs, q)
  {
    assert (q - p - 1) * (SETTLED + procs + 2) >= 0;
  }

  /** The part of a run before the front `x` is chosen, and where the process that was at
      place `p` is then. */
  lemma {:induction false} FirstChoice(s: State, p: int, run: seq<Action>, x: int) returns (k: int, t: State, p': int)
    requires Inv(s) && 0 < p < |s.queue| && s.queue[0] == x && RunsWithout(s, run, s.queue[p])
    ensures 0 <= k <= |run| && RunsWithout(s, run[..k], x)
              && Dispatches(run) == Dispatches(run[..k]) + Dispatches(run[k..])
    ensures Inv(t) && |t.pri| == |s.pri| && 0 < p' <= p && p' < |t.queue| && t.queue[0] == x
              && t.queue[p'] == s.queue[p]
    ensures RunsWithout(t, run[k..], s.queue[p])
    ensures k < |run| ==> Allowed(t, run[k]) && run[k].Dispatch? && Chosen(t) == x
    decreases |run|
  {
    hide Best, Fed, Step, Chosen;
    if run == [] || (run[0].Dispatch? && Chosen(s) == x) {
      assert run[..0] == [] && run[0..] == run;
      k, t, p' := 0, s, p;
    } else {
      StepKeeps(s, run[0]);
      FrontStays(s, x, run[0]);
      var q := PlaceAfter(s, p, run[0]);
      k, t, p' := FirstChoice(Step(s, run[0]), q, run[1..], x);
      assert run[..k + 1] == [run[0]] + run[1..][..k] && run[k + 1..] == run[1..][k..];
      k := k + 1;
    }
  }

  /** Bounded waiting for everybody: a process in the run queue is chosen within a number of
      dispatches that grows with its place, and depends on nothing that others do. */
  lemma {:induction false} EveryoneIsChosen(s: State, p: int, run: seq<Action>)
    requires Inv(s) && 0 <= p < |s.queue| && RunsWithout(s, run, s.queue[p])
    ensures Dispatches(run) < Patience(|s.pri|, p)
    decreases p
  {
    hide Best, Fed, Step, Chosen;
    if p == 0 {
      AnyFrontIsChosen(s, s.queue[0], run);
    } else {
      var k, t, q := FirstChoice(s, p, run, s.queue[0]);
      AnyFrontIsChosen(s, s.queue[0], run[..k]);
      if k < |run| {
        StepKeeps(t, run[k]);
        var q' := PlaceAfter(t, q, run[k]);
        assert run[k..][0] == run[k] && run[k..][1..] == run[k + 1..];
        EveryoneIsChosen(Step(t, run[k]), q', run[k + 1..]);
        PatienceGrows(|s.pri|, q', p);
      } else {
        assert run[..k] == run;
        PatienceGrows(|s.pri|, 0, p);
      }
    }
  }
}
