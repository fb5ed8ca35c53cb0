/** The dispatcher in place: stamps and priorities in arrays, and the scan of the run queue
    for the process to run next.

    The run queue is a sequence in the order in which the scan meets the processes, so the
    end of the sequence is where the source puts a process that becomes runnable.  Sums
    lose their sign bit as in the source; the invariant keeps the stamps so small that this
    never changes them. */
module Scheduler {
  import Chains
  import opened SchedSpec
  import opened SchedLaws

  class Dispatcher {
    const pri: array<int>          // p_schedPri
    const food: array<int>         // p_foodstamp
    var runq: seq<int>             // the run queue as it is scanned
    var self: int                  // SELF
    var quantum: int
    ghost var running: bool        // false while a process is about to be chosen

    ghost function View(): State
      reads this, pri, food
    {
      State(runq, pri[..], food[..], self, running)
    }

    /** The machine's state, with stamps that have not come near the sign bit. */
    ghost predicate Valid()
      reads this, pri, food
    {
      && pri != food && pri.Length == food.Length && Inv(View()) && quantum <= DEFAULT_QUANTUM
      && forall x :: 0 <= x < food.Length ==> food[x] < MASK - TOP_PRI - 1
    }

    /** A tick of the clock: the quantum has no floor here. */
    method Tick()
      requires Valid()
      modifies this`quantum
      ensures Valid() && quantum == old(quantum) - 1 && View() == old(View())
    {
      quantum := quantum - 1;
    }

    /** process_set_runnable: joins the queue at its end. */
    method SetRunnable(x: int)
      requires Valid() && 0 <= x < pri.Length && x !in runq && !(running && x == self)
      modifies this`runq
      ensures Valid() && View() == Step(old(View()), Wake(x))
    {
      StepKeeps(View(), Wake(x));
      runq := runq + [x];
    }

    /** The part of x_sleep that decides how soon the process runs again. */
    method GoToSleep(prio: int)
      requires Valid() && running && 0 <= prio <= TOP_SLEEP
      modifies food, this`running
      ensures Valid() && View() == Step(old(View()), Sleep(prio))
    {
      StepKeeps(View(), Sleep(prio));
      ghost var f := food[..];
      food[self] := ClearSign(food[self] + 8 * prio + 7);
      running := false;
      assert food[..] == f[self := f[self] + 8 * prio + 7];
    }

    /** One turn of the scan: place `cur` takes the lead, or its process is fed.  `f` are the
        stamps before the scan. */
    method ScanPlace(cur: int, max_prior: int, ghost f: seq<int>) returns (lead: bool, cur_con: int)
      requires food != pri && 0 <= cur < |runq| && Scannable(runq, pri[..], f) && Chains.Distinct(runq)
      requires food.Length == |f|
      requires food[..] == Fed(runq, pri[..], f, self, cur)
      requires pri[runq[cur]] >= 0 && 0 <= f[runq[cur]] && Value(pri[..], f, runq[cur]) < MASK - 1
      requires max_prior == Value(pri[..], f, runq[if cur == 0 then 0 else Best(runq, pri[..], f, cur)])
      modifies food
      ensures food[..] == Fed(runq, pri[..], f, self, cur + 1)
      ensures cur_con == Value(pri[..], f, runq[cur]) && (lead <==> TakesLead(runq, pri[..], f, cur))
    {
      hide Fed, Best, TakesLead, Chains.Distinct, ClearSign;
      var x := runq[cur];
      ghost var before := food[..];
      NotYetFed(runq, pri[..], f, self, cur);
      OneMore(runq, pri[..], f, self, cur, before);
      cur_con := ClearSign(pri[x] + food[x]);
      lead := cur_con > max_prior;
      if !lead && x != self {
        food[x] := ClearSign(food[x] + 1);
        assert food[..] == before[x := before[x] + 1];
      }
    }

    /** get_next_process, when the run queue is not empty. */
    method GetNextProcess() returns (ret: int, place: int)
      requires Valid() && runq != []
      modifies food
      ensures 0 <= place < |runq| && ret == runq[place] == Chosen(old(View()))
      ensures place == Best(runq, pri[..], old(food[..]), |runq|)
      ensures food[..] == Fed(runq, pri[..], old(food[..]), self, |runq|)[ret := 0]
    {
      hide Fed, Best, Inv, Shape, TakesLead, Chains.Distinct;
      CanScan(View());
      ghost var f := food[..];
      var cur := 0;
      ret, place := runq[0], 0;
      var max_prior := pri[ret] + food[ret];
      NoneFed(runq, pri[..], f, self);
      while cur < |runq|
        invariant 0 <= cur <= |runq| && food[..] == Fed(runq, pri[..], f, self, cur)
        invariant 0 <= place < |runq| && ret == runq[place] && max_prior == Value(pri[..], f, ret)
        invariant place == if cur == 0 then 0 else Best(runq, pri[..], f, cur)
      {
        var lead, cur_con := ScanPlace(cur, max_prior, f);
        LeadIs(runq, pri[..], f, cur);
        if lead {
          max_prior, ret, place := cur_con, runq[cur], cur;
        }
        cur := cur + 1;
      }
      food[ret] := 0;
    }

    /** dispatch, once some process is runnable. */
    method Dispatch()
      requires Valid() && !running && runq != [] && forall x :: 0 <= x < food.Length ==> food[x] < MASK - TOP_PRI - 2
      modifies this`runq, this`self, this`quantum, this`running, pri, food
      ensures Valid() && View() == Step(old(View()), SchedSpec.Dispatch(old(quantum))) && quantum == DEFAULT_QUANTUM
      ensures Charged(old(pri[self]), old(quantum), pri[old(self)])
      ensures forall x :: 0 <= x < pri.Length && x != old(self) ==> pri[x] == old(pri[x])
    {
      hide Fed, Best, NewPriority, Charged;
      DispatchCharges(View(), quantum);
      ghost var s, p, f := View(), pri[..], food[..];
      StepKeeps(s, SchedSpec.Dispatch(quantum));
      FedAlittle(s);
      var pp, place := GetNextProcess();
      runq := Chains.Cut(runq, place);
      var divisor := if DEFAULT_QUANTUM == quantum then 1 else DEFAULT_QUANTUM - quantum;
      var new_usage := DEFAULT_QUANTUM * SCHED_SCALE / divisor;
      var newpri := (new_usage + pri[self]) / 2;
      PriorityIs(pri[self], quantum);
      pri[self] := ClearSign(newpri);
      assert pri[..] == p[self := NewPriority(p[self], quantum)];
      quantum := DEFAULT_QUANTUM;
      self := pp;
      running := true;
    }
  }

  lemma CanScan(s: State)
    requires Inv(s)
    ensures Scannable(s.queue, s.pri, s.food) && Chains.Distinct(s.queue) && Shape(s)
    ensures forall x :: 0 <= x < |s.pri| ==> 0 <= s.pri[x] <= TOP_PRI && s.food[x] >= 0
  {
  }

  lemma NoneFed(q: seq<int>, pri: seq<int>, food: seq<int>, self: int)
    requires Scannable(q, pri, food)
    ensures Fed(q, pri, food, self, 0) == food
  {
  }

  lemma NotYetFed(q: seq<int>, pri: seq<int>, food: seq<int>, self: int, n: int)
    requires Scannable(q, pri, food) && Chains.Distinct(q) && 0 <= n < |q|
    ensures Fed(q, pri, food, self, n)[q[n]] == food[q[n]]
  {
    NotFed(q, pri, food, self, n, q[n]);
  }

  /** One more place of the queue is scanned; `f` are the stamps before that. */
  lemma OneMore(q: seq<int>, pri: seq<int>, food: seq<int>, self: int, n: int, f: seq<int>)
    requires Scannable(q, pri, food) && 0 <= n < |q| && f == Fed(q, pri, food, self, n)
    ensures |f| == |food|
    ensures Fed(q, pri, food, self, n + 1) ==
              if TakesLead(q, pri, food, n) || q[n] == self then f else f[q[n] := f[q[n]] + 1]
    ensures TakesLead(q, pri, food, n) <==> n > 0 && Value(pri, food, q[n]) > Value(pri, food, q[Best(q, pri, food, n)])
  {
  }

  lemma LeadIs(q: seq<int>, pri: seq<int>, food: seq<int>, n: int)
    requires Scannable(q, pri, food) && 0 <= n < |q|
    ensures Best(q, pri, food, n + 1) == if n == 0 || TakesLead(q, pri, food, n) then n else Best(q, pri, food, n)
  {
  }

  lemma FedAlittle(s: State)
    requires Inv(s)
    ensures forall x :: 0 <= x < |s.food| ==> Fed(s.queue, s.pri, s.food, s.self, |s.queue|)[x] <= s.food[x] + 1
  {
    forall x | 0 <= x < |s.food| ensures Fed(s.queue, s.pri, s.food, s.self, |s.queue|)[x] <= s.food[x] + 1 {
      FedBounds(s.queue, s.pri, s.food, s.self, |s.queue|, x);
    }
  }

  lemma PriorityIs(pri: int, quantum: int)
    requires 0 <= pri && quantum <= DEFAULT_QUANTUM
    ensures NewPriority(pri, quantum) ==
            ClearSign((DEFAULT_QUANTUM * SCHED_SCALE /
                       (if DEFAULT_QUANTUM == quantum then 1 else DEFAULT_QUANTUM - quantum) + pri) / 2)
  {
  }
}
