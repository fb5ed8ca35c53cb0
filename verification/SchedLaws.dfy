/** Dispatching, step by step. */
module SchedLaws {
  // What dispatching does to queue, stamps and priorities, and what comes of it: who uses more
  // of the processor is not ranked higher.

  import Chains
  import opened SchedSpec

  // ----- one scan -----

  /** Whether a process is passed over where it stands: one before it is worth as much, or it
      is where the scan begins. */
  predicate PassedOver(q: seq<int>, pri: seq<int>, food: seq<int>, i: int)
    requires Scannable(q, pri, food) && 0 <= i < |q|
  {
    i == 0 || exists j :: 0 <= j < i && pri[q[j]] + food[q[j]] >= pri[q[i]] + food[q[i]]
  }

  lemma LeadsIff(q: seq<int>, pri: seq<int>, food: seq<int>, i: int)
    requires Scannable(q, pri, food) && 0 <= i < |q|
    ensures TakesLead(q, pri, food, i) <==> !PassedOver(q, pri, food, i)
  {
    if i > 0 {
      var b := Best(q, pri, food, i);
      assert Value(pri, food, q[b]) == pri[q[b]] + food[q[b]];
      forall j | 0 <= j < i ensures pri[q[j]] + food[q[j]] <= pri[q[b]] + food[q[b]] {
        assert Value(pri, food, q[j]) <= Value(pri, food, q[b]);
      }
    }
  }

  /** A scan feeds exactly those that it passes over, but not the process that gives up the
      processor. */
  lemma {:induction false} FedIff(q: seq<int>, pri: seq<int>, food: seq<int>, self: int, n: int, i: int)
    requires Scannable(q, pri, food) && Chains.Distinct(q) && 0 <= i < |q| && 0 <= n <= |q|
    ensures Fed(q, pri, food, self, n)[q[i]] ==
            food[q[i]] + if i < n && q[i] != self && PassedOver(q, pri, food, i) then 1 else 0
  {
    if n > 0 {
      FedIff(q, pri, food, self, n - 1, i);
      LeadsIff(q, pri, food, n - 1);
      hide PassedOver, TakesLead, Best;
    }
  }

  // ----- one dispatch -----

  /** The mean of the old priority and 1000 over the ticks used, at least one, rounded down. */
  ghost predicate Charged(was: int, quantum: int, now: int) {
    var used := if quantum >= DEFAULT_QUANTUM then 1 else DEFAULT_QUANTUM - quantum;
    2 * now <= was + 1000 / used <= 2 * now + 1
  }

  /** A dispatch takes the first of those who are worth most off the queue, and only them. */
  lemma DispatchChooses(s: State, quantum: int) returns (b: int)
    requires Inv(s) && Allowed(s, Dispatch(quantum))
    ensures var t, q := Step(s, Dispatch(quantum)), s.queue;
            && 0 <= b < |q| && t.self == q[b] && t.running && t.queue == q[..b] + q[b + 1..]
            && (forall i :: 0 <= i < |q| ==> s.pri[q[i]] + s.food[q[i]] <= s.pri[q[b]] + s.food[q[b]])
            && (forall i :: 0 <= i < b ==> s.pri[q[i]] + s.food[q[i]] < s.pri[q[b]] + s.food[q[b]])
  {
    hide Fed, NewPriority;
    var q := s.queue;
    b := Best(q, s.pri, s.food, |q|);
    forall i | 0 <= i < |q| ensures s.pri[q[i]] + s.food[q[i]] <= s.pri[q[b]] + s.food[q[b]] {
      assert Value(s.pri, s.food, q[i]) <= Value(s.pri, s.food, q[b]);
    }
    forall i | 0 <= i < b ensures s.pri[q[i]] + s.food[q[i]] < s.pri[q[b]] + s.food[q[b]] {
      assert Value(s.pri, s.food, q[i]) < Value(s.pri, s.food, q[b]);
    }
  }

  /** It spends the stamp of the one chosen, and feeds exactly those that it passes over. */
  lemma DispatchFeeds(s: State, quantum: int, x: int)
    requires Inv(s) && Allowed(s, Dispatch(quantum)) && 0 <= x < |s.food|
    ensures var t := Step(s, Dispatch(quantum));
            && |t.food| == |s.food|
            && (x == t.self ==> t.food[x] == 0)
            && (x != t.self && x !in s.queue ==> t.food[x] == s.food[x])
    ensures var t := Step(s, Dispatch(quantum));
            forall i :: 0 <= i < |s.queue| && s.queue[i] == x != t.self ==>
              t.food[x] == s.food[x] + if x != s.self && PassedOver(s.queue, s.pri, s.food, i) then 1 else 0
  {
    hide Best, Fed, PassedOver, NewPriority;
    var q := s.queue;
    if x in q {
      forall i | 0 <= i < |q| && q[i] == x
        ensures Fed(q, s.pri, s.food, s.self, |q|)[x] ==
                s.food[x] + if x != s.self && PassedOver(q, s.pri, s.food, i) then 1 else 0
      {
        FedIff(q, s.pri, s.food, s.self, |q|, i);
      }
    } else {
      NotFed(q, s.pri, s.food, s.self, |q|, x);
    }
  }

  /** It charges the process that gives up the processor, and nobody else, for the ticks that
      it has used. */
  lemma DispatchCharges(s: State, quantum: int)
    requires Inv(s) && Allowed(s, Dispatch(quantum))
    ensures var t := Step(s, Dispatch(quantum));
            && |t.pri| == |s.pri| && Charged(s.pri[s.self], quantum, t.pri[s.self])
            && forall x :: 0 <= x < |s.pri| && x != s.self ==> t.pri[x] == s.pri[x]
  {
    hide Best, Fed;
  }

  /** All other steps: only a new process, and one that starts a program, changes its priority,
      and the stamp of a sleeper depends on its priority of sleep alone. */
  lemma OthersDo(s: State, a: Action)
    requires Inv(s) && Allowed(s, a) && !a.Dispatch?
    ensures var t := Step(s, a);
            && t.self == s.self && |t.pri| == |s.pri| == |t.food|
            && t.queue == s.queue +
                 (match a case Wake(x) => [x] case Fork(x) => [x] case Preempt => [s.self] case _ => [])
            && (t.running <==> s.running && !(a.Preempt? || a.Sleep? || a.Exit?))
            && match a
               case Fork(x) => t.pri == s.pri[x := s.pri[s.self]] && t.food == s.food[x := 0]
               case Exec => t.pri == s.pri[s.self := 500] && t.food == s.food
               case Sleep(prio) => t.pri == s.pri && t.food == s.food[s.self := 8 * prio + 7]
               case _ => t.pri == s.pri && t.food == s.food
  {
    if a.Exec? { assert s.food[s.self := 0] == s.food; }
  }

  // ----- what comes of it -----

  /** Of two processes with equal priority the one that used more ticks never comes out
      higher. */
  lemma MoreUseIsNotHigher(s: State, t: State, qs: int, qt: int)
    requires Inv(s) && Allowed(s, Dispatch(qs)) && Inv(t) && Allowed(t, Dispatch(qt))
    requires s.pri[s.self] == t.pri[t.self] && qs <= qt
    ensures Step(s, Dispatch(qs)).pri[s.self] <= Step(t, Dispatch(qt)).pri[t.self]
  {
    DispatchCharges(s, qs);
    DispatchCharges(t, qt);
    hide Step;
    var us := if qs >= DEFAULT_QUANTUM then 1 else DEFAULT_QUANTUM - qs;
    var ut := if qt >= DEFAULT_QUANTUM then 1 else DEFAULT_QUANTUM - qt;
    Quotients(1000, ut, us);
  }

  lemma Quotients(n: int, u: int, v: int)
    requires 0 < u <= v && n >= 0
    ensures n / v <= n / u
  {
    Products(n / v, u, v);
    if n / v > n / u {
      Products(u, n / u + 1, n / v);
      assert false;
    }
  }

  lemma Products(x: int, a: int, b: int)
    requires 0 <= x && a <= b
    ensures x * a <= x * b
  {
    assert x * (b - a) >= 0;
  }

  /** The highest and the lowest priority after `n` dispatches at which all of the quantum was
      used. */
  function High(n: nat): int {
    if n == 0 then TOP_PRI else (High(n - 1) + 100) / 2
  }

  function Low(n: nat): int {
    if n == 0 then 0 else (Low(n - 1) + 100) / 2
  }

  lemma {:induction false} Settles(n: nat)
    requires n >= 10
    ensures High(n) == 100 && Low(n) == 99
  {
    if n > 10 {
      Settles(n - 1);
    } else {
      assert High(2) == 325 && Low(2) == 75;
      assert High(4) == 156 && Low(4) == 93;
      assert High(6) == 114 && Low(6) == 98;
      assert High(8) == 103 && Low(8) == 99;
    }
  }

  /** A run in which process `x` uses all of its quantum whenever it has the processor; it is
      not a new process and starts no program. */
  ghost predicate UsesAll(s: State, run: seq<Action>, x: int)
    requires Inv(s)
    decreases |run|
  {
    run == [] ||
    (Allowed(s, run[0]) && (run[0].Fork? ==> run[0].x != x) && (run[0].Exec? ==> s.self != x)
    && (run[0].Dispatch? && s.self == x ==> run[0].quantum == 0)
    && (StepKeeps(s, run[0]); UsesAll(Step(s, run[0]), run[1..], x)))
  }

  /** How often process `x` gives up the processor. */
  ghost function Turns(s: State, run: seq<Action>, x: int): nat
    requires Inv(s) && UsesAll(s, run, x)
    decreases |run|
  {
    if run == [] then 0
    else
      StepKeeps(s, run[0]);
      (if run[0].Dispatch? && s.self == x then 1 else 0) + Turns(Step(s, run[0]), run[1..], x)
  }

  ghost function After(s: State, run: seq<Action>, x: int): (t: State)
    requires Inv(s) && UsesAll(s, run, x)
    ensures Inv(t) && |t.pri| == |s.pri|
    decreases |run|
  {
    if run == [] then s else
      StepKeeps(s, run[0]);
      After(Step(s, run[0]), run[1..], x)
  }

  lemma StepCharges(s: State, a: Action, x: int, n: nat)
    requires Inv(s) && Allowed(s, a) && 0 <= x < |s.pri| && Low(n) <= s.pri[x] <= High(n)
    requires (a.Fork? ==> a.x != x) && (a.Exec? ==> s.self != x)
    requires a.Dispatch? && s.self == x ==> a.quantum == 0
    ensures var m := n + if a.Dispatch? && s.self == x then 1 else 0;
            |Step(s, a).pri| == |s.pri| && Low(m) <= Step(s, a).pri[x] <= High(m)
  {
    if a.Dispatch? {
      DispatchCharges(s, a.quantum);
    } else {
      OthersDo(s, a);
    }
    hide Step, Inv, Allowed;
  }

  lemma {:induction false} RunCharges(s: State, run: seq<Action>, x: int, n: nat)
    requires Inv(s) && 0 <= x < |s.pri| && UsesAll(s, run, x) && Low(n) <= s.pri[x] <= High(n)
    ensures Low(n + Turns(s, run, x)) <= After(s, run, x).pri[x] <= High(n + Turns(s, run, x))
    decreases |run|
  {
    hide Low, High, Step;
    if run != [] {
      StepKeeps(s, run[0]);
      StepCharges(s, run[0], x, n);
      RunCharges(Step(s, run[0]), run[1..], x, n + if run[0].Dispatch? && s.self == x then 1 else 0);
    }
  }

  /** Whatever the others do, a process that always uses all of its quantum is at 99 or 100 of
      1000 after ten turns, and stays there. */
  lemma HogsFall(s: State, run: seq<Action>, x: int)
    requires Inv(s) && 0 <= x < |s.pri| && UsesAll(s, run, x) && Turns(s, run, x) >= 10
    ensures 99 <= After(s, run, x).pri[x] <= 100
  {
    RunCharges(s, run, x, 0);
    Settles(Turns(s, run, x));
  }
}
