/** Sleeping, waking up, and gates: locks on which processes wait without losing a wakeup. */
module Gates {
  import Chains

  const NHPLINK: int := 97

  function Hash(e: int): (h: int)
    requires e >= 0
    ensures 0 <= h < NHPLINK
  {
    e % NHPLINK
  }

  /** The two bytes of a gate. */
  datatype Gate = Gate(locked: bool, waiters: bool)

  /** `linkq` holds the sleeping processes by the hash of the event they sleep on,
      `event[p]` is the event of process `p`, and gates are known by their addresses, which
      are also the events to sleep on.  `holds` says who has locked what. */
  datatype State = State(linkq: seq<seq<int>>, event: seq<int>, runq: seq<int>, gates: map<int, Gate>,
                         holds: set<(int, int)>)

  predicate Shape(s: State) {
    && |s.linkq| == NHPLINK && (forall g :: g in s.gates ==> g >= 0)
    && forall p :: 0 <= p < |s.event| ==> s.event[p] >= 0
  }

  predicate Asleep(s: State, p: int) {
    exists h :: 0 <= h < |s.linkq| && p in s.linkq[h]
  }

  // ----- sleep and wakeup -----

  /** The processes of a queue that sleep on `e`, and those that sleep on other events. */
  function Waiting(q: seq<int>, event: seq<int>, e: int): seq<int>
  {
    if q == [] then []
    else (if 0 <= q[0] < |event| && event[q[0]] == e then [q[0]] else []) + Waiting(q[1..], event, e)
  }

  function Others(q: seq<int>, event: seq<int>, e: int): seq<int>
  {
    if q == [] then []
    else (if 0 <= q[0] < |event| && event[q[0]] == e then [] else [q[0]]) + Others(q[1..], event, e)
  }

  lemma {:induction false} Divided(q: seq<int>, event: seq<int>, e: int, p: int)
    ensures p in Waiting(q, event, e) <==> p in q && 0 <= p < |event| && event[p] == e
    ensures p in Others(q, event, e) <==> p in q && !(0 <= p < |event| && event[p] == e)
  {
    if q != [] {
      Divided(q[1..], event, e, p);
      assert p in q <==> p == q[0] || p in q[1..];
    }
  }

  lemma AllDivided(q: seq<int>, event: seq<int>, e: int)
    ensures forall p :: p in Waiting(q, event, e) <==> p in q && 0 <= p < |event| && event[p] == e
    ensures forall p :: p in Others(q, event, e) <==> p in q && !(0 <= p < |event| && event[p] == e)
  {
    forall p
      ensures p in Waiting(q, event, e) <==> p in q && 0 <= p < |event| && event[p] == e
      ensures p in Others(q, event, e) <==> p in q && !(0 <= p < |event| && event[p] == e)
    {
      Divided(q, event, e, p);
    }
  }

  function SleepOn(s: State, p: int, e: int): (s': State)
    requires Shape(s) && 0 <= p < |s.event| && e >= 0
    ensures Shape(s')
  {
    s.(linkq := s.linkq[Hash(e) := s.linkq[Hash(e)] + [p]], event := s.event[p := e])
  }

  function WakeUp(s: State, e: int): (s': State)
    requires Shape(s) && e >= 0
    ensures Shape(s')
  {
    var q := s.linkq[Hash(e)];
    s.(linkq := s.linkq[Hash(e) := Others(q, s.event, e)], runq := s.runq + Waiting(q, s.event, e))
  }

  // ----- gates -----

  /** One turn of the loop of __GATE_LOCK: process `p` gets the gate or goes to sleep. */
  function TryLock(s: State, p: int, g: int): (s': State)
    requires Shape(s) && 0 <= p < |s.event| && g in s.gates
    ensures Shape(s')
  {
    if s.gates[g].locked then SleepOn(s.(gates := s.gates[g := Gate(true, true)]), p, g)
    else s.(gates := s.gates[g := s.gates[g].(locked := true)], holds := s.holds + {(p, g)})
  }

  function Unlock(s: State, p: int, g: int): (s': State)
    requires Shape(s) && g in s.gates
    ensures Shape(s')
  {
    var s1 := s.(gates := s.gates[g := Gate(false, false)], holds := s.holds - {(p, g)});
    if s.gates[g].waiters then WakeUp(s1, g) else s1
  }

  /** What processes do, in any order: try a gate, unlock a gate they hold, sleep on another
      event, wake up an event, and leave the run queue to run. */
  datatype Action = DoLock(p: int, g: int) | DoUnlock(p: int, g: int) | DoSleep(p: int, e: int) | DoWake(e: int) | DoRun

  predicate Allowed(s: State, a: Action) {
    && Shape(s)
    && match a
       case DoLock(p, g) => 0 <= p < |s.event| && !Asleep(s, p) && p !in s.runq && g in s.gates
       case DoUnlock(p, g) => g in s.gates && (p, g) in s.holds
       case DoSleep(p, e) => 0 <= p < |s.event| && !Asleep(s, p) && p !in s.runq && e >= 0 && e !in s.gates
       case DoWake(e) => e >= 0
       case DoRun => s.runq != []
  }

  function Step(s: State, a: Action): (s': State)
    requires Allowed(s, a)
    ensures Shape(s')
  {
    match a
    case DoLock(p, g) => TryLock(s, p, g)
    case DoUnlock(p, g) => Unlock(s, p, g)
    case DoSleep(p, e) => SleepOn(s, p, e)
    case DoWake(e) => WakeUp(s, e)
    case DoRun => s.(runq := s.runq[1..])
  }

  // ----- what every step keeps -----

  /** Sleepers are in the queue of their event, and only once. */
  predicate Queued(s: State, h: int)
    requires Shape(s) && 0 <= h < NHPLINK
  {
    && (forall p :: p in s.linkq[h] ==> 0 <= p < |s.event| && Hash(s.event[p]) == h && p !in s.runq)
    && Chains.Distinct(s.linkq[h])
  }

  /** Whoever sleeps on a gate finds it locked, with its waiter flag set. */
  predicate Noticed(s: State, p: int)
    requires Shape(s) && 0 <= p < |s.event|
  {
    Asleep(s, p) && s.event[p] in s.gates ==> s.gates[s.event[p]] == Gate(true, true)
  }

  /** A gate is locked exactly when somebody holds it, and then nobody else does. */
  ghost predicate Exclusive(s: State, g: int)
    requires g in s.gates
  {
    && (s.gates[g].locked <==> exists p :: (p, g) in s.holds)
    && forall p, p' :: (p, g) in s.holds && (p', g) in s.holds ==> p == p'
  }

  ghost predicate Inv(s: State) {
    && Shape(s)
    && (forall h :: 0 <= h < NHPLINK ==> Queued(s, h))
    && (forall p :: 0 <= p < |s.event| ==> Noticed(s, p))
    && (forall g :: g in s.gates ==> Exclusive(s, g))
  }

  lemma AsleepWhere(s: State, p: int)
    requires Inv(s) && 0 <= p < |s.event|
    ensures Asleep(s, p) <==> p in s.linkq[Hash(s.event[p])]
  {
    if Asleep(s, p) {
      var h :| 0 <= h < |s.linkq| && p in s.linkq[h];
      assert Queued(s, h);
    }
  }

  lemma SleepKeeps(s: State, p: int, e: int)
    requires Shape(s) && (forall h :: 0 <= h < NHPLINK ==> Queued(s, h))
    requires (forall q :: 0 <= q < |s.event| ==> Noticed(s, q))
    requires 0 <= p < |s.event| && !Asleep(s, p) && p !in s.runq && e >= 0
    requires (e in s.gates ==> s.gates[e] == Gate(true, true))
    ensures var s' := SleepOn(s, p, e);
              (forall h :: 0 <= h < NHPLINK ==> Queued(s', h)) && (forall q :: 0 <= q < |s'.event| ==> Noticed(s', q))
  {
    var s' := SleepOn(s, p, e);
    forall h | 0 <= h < NHPLINK ensures Queued(s', h) && p !in s.linkq[h] {
      assert Queued(s, h);
    }
    forall q | 0 <= q < |s'.event| ensures Noticed(s', q) {
      assert Noticed(s, q);
      if q != p && Asleep(s', q) {
        var h :| 0 <= h < |s'.linkq| && q in s'.linkq[h];
        assert q in s.linkq[h];
      }
    }
  }

  lemma {:induction false} OthersOnce(q: seq<int>, event: seq<int>, e: int)
    requires Chains.Distinct(q)
    ensures Chains.Distinct(Others(q, event, e))
  {
    if q != [] {
      OthersOnce(q[1..], event, e);
      assert q[0] !in q[1..];
      Divided(q[1..], event, e, q[0]);
      OnceMore(q[0], Others(q[1..], event, e));
    }
  }

  lemma OnceMore(p: int, r: seq<int>)
    requires Chains.Distinct(r) && p !in r
    ensures Chains.Distinct([p] + r)
  {
  }

  /** Waking up: exactly the processes asleep on `e` become runnable. */
  lemma WakeKeeps(s: State, e: int)
    requires Shape(s) && (forall h :: 0 <= h < NHPLINK ==> Queued(s, h)) && e >= 0
    ensures var s' := WakeUp(s, e);
            && (forall h :: 0 <= h < NHPLINK ==> Queued(s', h))
            && (forall p :: 0 <= p < |s.event| ==> (Asleep(s', p) <==> Asleep(s, p) && s.event[p] != e))
            && (forall p :: p in s'.runq <==> p in s.runq || (0 <= p < |s.event| && Asleep(s, p) && s.event[p] == e))
  {
    hide Others, Waiting;
    var s', k := WakeUp(s, e), Hash(e);
    assert Queued(s, k);
    OthersOnce(s.linkq[k], s.event, e);
    AllDivided(s.linkq[k], s.event, e);
    forall h | 0 <= h < NHPLINK ensures Queued(s', h) {
      assert Queued(s, h);
    }
    forall p | 0 <= p < |s.event|
      ensures Asleep(s', p) <==> Asleep(s, p) && s.event[p] != e
      ensures Asleep(s, p) && s.event[p] == e <==> p in Waiting(s.linkq[k], s.event, e)
    {
      WakeOne(s, e, p);
    }
  }

  lemma WakeOne(s: State, e: int, p: int)
    requires Shape(s) && (forall h :: 0 <= h < NHPLINK ==> Queued(s, h)) && e >= 0 && 0 <= p < |s.event|
    ensures Asleep(WakeUp(s, e), p) <==> Asleep(s, p) && s.event[p] != e
    ensures Asleep(s, p) && s.event[p] == e <==> p in Waiting(s.linkq[Hash(e)], s.event, e)
  {
    hide Others, Waiting;
    var s', k := WakeUp(s, e), Hash(e);
    AllDivided(s.linkq[k], s.event, e);
    if Asleep(s, p) {
      var h :| 0 <= h < |s.linkq| && p in s.linkq[h];
      assert Queued(s, h);
      if s.event[p] != e { assert p in s'.linkq[h]; }
    }
    if Asleep(s', p) {
      var h :| 0 <= h < |s'.linkq| && p in s'.linkq[h];
      assert p in s.linkq[h] && Queued(s, h);
    }
  }

  lemma LockKeeps(s: State, p: int, g: int)
    requires Inv(s) && Allowed(s, DoLock(p, g))
    ensures Inv(TryLock(s, p, g))
  {
    var s' := TryLock(s, p, g);
    if s.gates[g].locked {
      var s1 := s.(gates := s.gates[g := Gate(true, true)]);
      SameSleepers(s, s1);
      forall q | 0 <= q < |s1.event| ensures Noticed(s1, q) { assert Noticed(s, q); }
      SleepKeeps(s1, p, g);
      forall x | x in s'.gates ensures Exclusive(s', x) { assert Exclusive(s, x); }
    } else {
      SameSleepers(s, s');
      forall q | 0 <= q < |s'.event| ensures Noticed(s', q) { assert Noticed(s, q); }
      forall x | x in s'.gates ensures Exclusive(s', x) {
        assert Exclusive(s, x);
        if x == g { assert (p, g) in s'.holds; }
        assert forall y :: (y, x) in s.holds ==> (y, x) in s'.holds;
      }
    }
  }

  lemma SameSleepers(s: State, s': State)
    requires Inv(s) && Shape(s') && s'.linkq == s.linkq && s'.event == s.event
    requires (forall p :: p in s'.runq ==> p in s.runq)
    ensures forall h :: 0 <= h < NHPLINK ==> Queued(s', h)
    ensures forall p :: Asleep(s', p) <==> Asleep(s, p)
  {
    forall h | 0 <= h < NHPLINK ensures Queued(s', h) { assert Queued(s, h); }
  }

  lemma UnlockKeeps(s: State, p: int, g: int)
    requires Inv(s) && Allowed(s, DoUnlock(p, g))
    ensures Inv(Unlock(s, p, g))
    ensures forall q :: 0 <= q < |s.event| && Asleep(s, q) && s.event[q] == g ==> q in Unlock(s, p, g).runq
  {
    var s', s1 := Unlock(s, p, g), s.(gates := s.gates[g := Gate(false, false)], holds := s.holds - {(p, g)});
    SameSleepers(s, s1);
    WakeKeeps(s1, g);
    forall q | 0 <= q < |s.event| ensures Noticed(s', q) && (Asleep(s, q) && s.event[q] == g ==> q in s'.runq) {
      assert Noticed(s, q);
    }
    forall x | x in s'.gates ensures Exclusive(s', x) {
      assert Exclusive(s, x);
      assert forall y :: (y, x) in s'.holds ==> (y, x) in s.holds;
      if x != g { assert forall y :: (y, x) in s.holds ==> (y, x) in s'.holds; }
    }
  }

  /** Every step of every process keeps the protocol's invariant. */
  lemma StepKeeps(s: State, a: Action)
    requires Inv(s) && Allowed(s, a)
    ensures Inv(Step(s, a))
  {
    var s' := Step(s, a);
    match a
    case DoLock(p, g) => LockKeeps(s, p, g);
    case DoUnlock(p, g) => UnlockKeeps(s, p, g);
    case DoSleep(p, e) =>
      SleepKeeps(s, p, e);
      forall x | x in s'.gates ensures Exclusive(s', x) { assert Exclusive(s, x); }
    case DoWake(e) =>
      WakeKeeps(s, e);
      forall q | 0 <= q < |s.event| ensures Noticed(s', q) { assert Noticed(s, q); }
      forall x | x in s'.gates ensures Exclusive(s', x) { assert Exclusive(s, x); }
    case DoRun =>
      SameSleepers(s, s');
      forall q | 0 <= q < |s.event| ensures Noticed(s', q) { assert Noticed(s, q); }
      forall x | x in s'.gates ensures Exclusive(s', x) { assert Exclusive(s, x); }
  }

  // ----- runs -----

  predicate Run(s: State, run: seq<Action>)
    decreases |run|
  {
    run == [] || (Allowed(s, run[0]) && Run(Step(s, run[0]), run[1..]))
  }

  function Last(s: State, run: seq<Action>): State
    requires Run(s, run)
    decreases |run|
  {
    if run == [] then s else Last(Step(s, run[0]), run[1..])
  }

  /** In every reachable state: at most one holder for a gate, and nobody asleep on a gate
      that is open or does not know of waiters. */
  lemma {:induction false} RunKeeps(s: State, run: seq<Action>)
    requires Inv(s) && Run(s, run)
    ensures Inv(Last(s, run))
    decreases |run|
  {
    if run != [] {
      StepKeeps(s, run[0]);
      RunKeeps(Step(s, run[0]), run[1..]);
    }
  }

  // ----- what single steps do -----

  /** Everything of the processes that sleep is the same but for `p`. */
  predicate OthersSleepOn(s: State, t: State, p: int) {
    |t.event| == |s.event| &&
    forall q :: 0 <= q < |s.event| && q != p ==> t.event[q] == s.event[q] && (Asleep(t, q) <==> Asleep(s, q))
  }

  /** Going to sleep. */
  lemma SleepDoes(s: State, p: int, e: int)
    requires Inv(s) && 0 <= p < |s.event| && !Asleep(s, p) && e >= 0
    ensures var t := SleepOn(s, p, e);
            && Asleep(t, p) && t.event[p] == e && OthersSleepOn(s, t, p)
            && t.runq == s.runq && t.gates == s.gates && t.holds == s.holds
  {
    var t := SleepOn(s, p, e);
    assert p in t.linkq[Hash(e)];
    forall q | 0 <= q < |s.event| && q != p ensures Asleep(t, q) <==> Asleep(s, q) {
      if Asleep(s, q) {
        var h :| 0 <= h < |s.linkq| && q in s.linkq[h];
        assert q in t.linkq[h];
      }
    }
  }

  /** A gate that is open is the caller's; else the caller sleeps on it, and it is known that
      somebody waits.  Nothing else changes. */
  lemma LockDoes(s: State, p: int, g: int)
    requires Inv(s) && Allowed(s, DoLock(p, g))
    ensures var t := Step(s, DoLock(p, g));
            && t.runq == s.runq && t.gates.Keys == s.gates.Keys
            && (forall x :: x in s.gates && x != g ==> t.gates[x] == s.gates[x])
            && OthersSleepOn(s, t, p)
            && if s.gates[g].locked then
                 Asleep(t, p) && t.event[p] == g && t.gates[g] == Gate(true, true) && t.holds == s.holds
               else !Asleep(t, p) && t.gates[g].locked && t.holds == s.holds + {(p, g)}
  {
    if s.gates[g].locked {
      var u := s.(gates := s.gates[g := Gate(true, true)]);
      var t := SleepOn(u, p, g);
      assert p in t.linkq[Hash(g)];
      forall q | 0 <= q < |s.event| && q != p ensures Asleep(t, q) <==> Asleep(s, q) {
        if Asleep(s, q) {
          var h :| 0 <= h < |s.linkq| && q in s.linkq[h];
          assert q in t.linkq[h];
        }
      }
    }
  }

  /** The gate is open, its holder has given it up, and whoever slept on it is runnable. */
  lemma UnlockDoes(s: State, p: int, g: int)
    requires Inv(s) && Allowed(s, DoUnlock(p, g))
    ensures var t := Step(s, DoUnlock(p, g));
            && t.gates == s.gates[g := Gate(false, false)] && t.holds == s.holds - {(p, g)} && t.event == s.event
            && (forall q :: 0 <= q < |s.event| ==> (Asleep(t, q) <==> Asleep(s, q) && s.event[q] != g))
            && (forall q :: q in t.runq <==> q in s.runq || (0 <= q < |s.event| && Asleep(s, q) && s.event[q] == g))
  {
    hide Waiting, Others;
    var u := s.(gates := s.gates[g := Gate(false, false)], holds := s.holds - {(p, g)});
    SameSleepers(s, u);
    WakeKeeps(u, g);
    if !s.gates[g].waiters {
      forall q | 0 <= q < |s.event| ensures !(Asleep(s, q) && s.event[q] == g) { assert Noticed(s, q); }
    }
  }

  // ----- in which order sleepers are woken -----

  predicate Before(s: seq<int>, p: int, q: int) {
    exists i :: 0 <= i <= |s| && p in s[..i] && q in s[i..]
  }

  /** Both sleep on `e`, `p` for longer than `q`. */
  predicate SleepsBefore(s: State, p: int, q: int, e: int)
    requires Shape(s) && e >= 0
  {
    && 0 <= p < |s.event| && 0 <= q < |s.event| && s.event[p] == e == s.event[q]
    && Before(s.linkq[Hash(e)], p, q)
  }

  lemma BeforeMore(a: seq<int>, s: seq<int>, b: seq<int>, p: int, q: int)
    requires Before(s, p, q)
    ensures Before(a + s + b, p, q)
  {
    var i :| 0 <= i <= |s| && p in s[..i] && q in s[i..];
    var r, k := a + s + b, |a| + i;
    assert r[..k] == a + s[..i] && r[k..] == s[i..] + b;
  }

  lemma BeforeDivided(s: seq<int>, p: int, q: int, event: seq<int>, e: int)
    requires Before(s, p, q) && 0 <= p < |event| && 0 <= q < |event| && event[p] == event[q]
    ensures if event[p] == e then Before(Waiting(s, event, e), p, q) else Before(Others(s, event, e), p, q)
  {
    hide Waiting, Others;
    var i :| 0 <= i <= |s| && p in s[..i] && q in s[i..];
    var a, b := s[..i], s[i..];
    assert s == a + b;
    WaitingConcat(a, b, event, e);
    AllDivided(a, event, e);
    AllDivided(b, event, e);
    if event[p] == e {
      Joined(Waiting(a, event, e), Waiting(b, event, e), p, q);
    } else {
      Joined(Others(a, event, e), Others(b, event, e), p, q);
    }
  }

  lemma Joined(a: seq<int>, b: seq<int>, p: int, q: int)
    requires p in a && q in b
    ensures Before(a + b, p, q)
  {
    assert (a + b)[..|a|] == a && (a + b)[|a|..] == b;
  }

  /** Whoever goes to sleep does so behind those who sleep already. */
  lemma SleepsBehind(s: State, p: int, q: int, e: int)
    requires Inv(s) && 0 <= p < |s.event| && Asleep(s, p) && s.event[p] == e
    requires 0 <= q < |s.event| && !Asleep(s, q)
    ensures SleepsBefore(SleepOn(s, q, e), p, q, e)
  {
    AsleepWhere(s, p);
    Joined(s.linkq[Hash(e)], [q], p, q);
  }

  /** Nobody is woken that sleeps on `e`. */
  predicate LetsSleep(a: Action, e: int) {
    !(a.DoUnlock? && a.g == e) && !(a.DoWake? && a.e == e)
  }

  lemma StaysBefore(s: State, a: Action, p: int, q: int, e: int)
    requires Inv(s) && Allowed(s, a) && e >= 0 && SleepsBefore(s, p, q, e) && LetsSleep(a, e)
    ensures SleepsBefore(Step(s, a), p, q, e)
  {
    hide Waiting, Others;
    var k, t := Hash(e), Step(s, a);
    var L := s.linkq[k];
    assert p in L && q in L by {
      var i :| 0 <= i <= |L| && p in L[..i] && q in L[i..];
      assert L == L[..i] + L[i..];
    }
    assert Asleep(s, p) && Asleep(s, q);
    match a
    case DoLock(x, g) =>
      BeforeMore([], L, [x], p, q);
      assert [] + L + [x] == L + [x];
    case DoUnlock(x, g) =>
      BeforeDivided(L, p, q, s.event, g);
    case DoSleep(x, g) =>
      BeforeMore([], L, [x], p, q);
      assert [] + L + [x] == L + [x];
    case DoWake(g) =>
      BeforeDivided(L, p, q, s.event, g);
    case DoRun =>
  }

  /** Sleepers are woken in the order in which they went to sleep, behind those that are
      runnable already, whatever has happened since. */
  lemma {:induction false} WokenInOrder(s: State, run: seq<Action>, p: int, q: int, e: int)
    requires Inv(s) && Run(s, run) && e >= 0 && SleepsBefore(s, p, q, e)
    requires forall i :: 0 <= i < |run| ==> LetsSleep(run[i], e)
    ensures Shape(Last(s, run))
    ensures var t := Last(s, run); t.runq <= WakeUp(t, e).runq && Before(WakeUp(t, e).runq, p, q)
    decreases |run|
  {
    if run == [] {
      BeforeDivided(s.linkq[Hash(e)], p, q, s.event, e);
      var w := Waiting(s.linkq[Hash(e)], s.event, e);
      BeforeMore(s.runq, w, [], p, q);
      assert s.runq + w + [] == s.runq + w;
    } else {
      assert LetsSleep(run[0], e) && forall i :: 0 <= i < |run[1..]| ==> run[1..][i] == run[i + 1];
      StepKeeps(s, run[0]);
      StaysBefore(s, run[0], p, q, e);
      hide Inv, Step, Allowed, SleepsBefore, WakeUp, Before;
      WokenInOrder(Step(s, run[0]), run[1..], p, q, e);
    }
  }

  /** A process asleep on a gate is still there, with somebody else holding the gate, until
      that gate is unlocked or its address woken up, and then it is runnable. */
  lemma SleeperIsWoken(s: State, a: Action, p: int)
    requires Inv(s) && Allowed(s, a) && 0 <= p < |s.event| && Asleep(s, p) && s.event[p] in s.gates
    ensures exists o :: (o, s.event[p]) in s.holds
    ensures if (a.DoUnlock? && a.g == s.event[p]) || a == DoWake(s.event[p])
            then p in Step(s, a).runq && !Asleep(Step(s, a), p)
            else Asleep(Step(s, a), p) && Step(s, a).event[p] == s.event[p]
  {
    hide Waiting, Others;
    var g, s' := s.event[p], Step(s, a);
    assert Noticed(s, p) && Exclusive(s, g);
    AsleepWhere(s, p);
    match a
    case DoLock(q, x) =>
      if s.gates[x].locked { assert p in s'.linkq[Hash(g)]; }
    case DoUnlock(q, x) =>
      var s1 := s.(gates := s.gates[x := Gate(false, false)], holds := s.holds - {(q, x)});
      SameSleepers(s, s1);
      WakeKeeps(s1, x);
    case DoSleep(q, e) =>
      assert p in s'.linkq[Hash(g)];
    case DoWake(e) =>
      WakeKeeps(s, e);
    case DoRun =>
  }

  // ----- in place -----

  class Sleepers {
    var linkq: seq<seq<int>>       // each list in its order
    var event: seq<int>            // p_event
    var runq: seq<int>
    var gates: map<int, Gate>
    ghost var holds: set<(int, int)>

    ghost function View(): State
      reads this
    {
      State(linkq, event, runq, gates, holds)
    }

    /** Queues ourselves on the event list. */
    method XSleep(p: int, e: int)
      requires Shape(View()) && 0 <= p < |event| && e >= 0
      modifies this`linkq, this`event
      ensures View() == SleepOn(old(View()), p, e)
    {
      event := event[p := e];
      linkq := linkq[Hash(e) := linkq[Hash(e)] + [p]];
    }

    /** wakeup: after every process found, the search begins again at the start of the
        queue.  It ends, and the processes are woken in the order in which they slept. */
    method Wakeup(e: int)
      requires Shape(View()) && e >= 0
      modifies this`linkq, this`runq
      ensures View() == WakeUp(old(View()), e)
    {
      hide Waiting, Others;
      var h := Hash(e);
      ghost var q0, r0, woken := linkq[h], runq, [];
      var pp := 0;
      while pp < |linkq[h]|
        invariant |linkq| == NHPLINK && 0 <= pp <= |linkq[h]| && linkq == old(linkq)[h := linkq[h]]
        invariant forall i :: 0 <= i < pp ==> !(0 <= linkq[h][i] < |event| && event[linkq[h][i]] == e)
        invariant woken + Waiting(linkq[h], event, e) == Waiting(q0, event, e) && runq == r0 + woken
        invariant Others(linkq[h], event, e) == Others(q0, event, e)
        decreases |linkq[h]|, |linkq[h]| - pp
      {
        var p := linkq[h][pp];
        if 0 <= p < |event| && event[p] == e {
          FirstWaiting(linkq[h], event, e, pp);
          ghost var q := linkq[h];
          linkq := linkq[h := linkq[h][..pp] + linkq[h][pp + 1..]];
          runq := runq + [p];
          assert woken + ([p] + Waiting(linkq[h], event, e)) == woken + [p] + Waiting(linkq[h], event, e);
          assert r0 + woken + [p] == r0 + (woken + [p]);
          woken := woken + [p];
          pp := 0;
        } else {
          pp := pp + 1;
        }
      }
      NoneWaiting(linkq[h], event, e);
      assert woken + [] == woken;
    }

    /** One turn of __GATE_LOCK; true when the gate has been locked. */
    method GateLock(p: int, g: int) returns (got: bool)
      requires Inv(View()) && Allowed(View(), DoLock(p, g))
      modifies this
      ensures Inv(View()) && View() == TryLock(old(View()), p, g) && got == !old(gates)[g].locked
    {
      LockKeeps(View(), p, g);
      if gates[g].locked {
        gates := gates[g := Gate(true, true)];
        XSleep(p, g);
        return false;
      }
      gates := gates[g := gates[g].(locked := true)];
      holds := holds + {(p, g)};
      got := true;
    }

    method GateUnlock(p: int, g: int)
      requires Inv(View()) && Allowed(View(), DoUnlock(p, g))
      modifies this
      ensures Inv(View()) && View() == Unlock(old(View()), p, g)
    {
      UnlockKeeps(View(), p, g);
      var waiters := gates[g].waiters;
      gates := gates[g := gates[g].(locked := false)];
      holds := holds - {(p, g)};
      if waiters {
        gates := gates[g := Gate(false, false)];
        assert gates == old(gates)[g := Gate(false, false)];
        Wakeup(g);
      } else {
        assert old(gates)[g].(locked := false) == Gate(false, false);
      }
    }
  }

  lemma Unfolded(q: seq<int>, event: seq<int>, e: int)
    requires q != []
    ensures var hit := 0 <= q[0] < |event| && event[q[0]] == e;
            && Waiting(q, event, e) == (if hit then [q[0]] + Waiting(q[1..], event, e) else Waiting(q[1..], event, e))
            && Others(q, event, e) == (if hit then Others(q[1..], event, e) else [q[0]] + Others(q[1..], event, e))
  {
  }

  lemma NobodyThere(event: seq<int>, e: int)
    ensures Waiting([], event, e) == [] == Others([], event, e)
  {
  }

  lemma TailOfConcat(a: seq<int>, b: seq<int>)
    requires a != []
    ensures (a + b)[1..] == a[1..] + b && (a + b)[0] == a[0]
  {
  }

  lemma Regroup(a: seq<int>, b: seq<int>, c: seq<int>)
    ensures a + (b + c) == a + b + c
  {
  }

  lemma {:induction false} WaitingConcat(a: seq<int>, b: seq<int>, event: seq<int>, e: int)
    ensures Waiting(a + b, event, e) == Waiting(a, event, e) + Waiting(b, event, e)
    ensures Others(a + b, event, e) == Others(a, event, e) + Others(b, event, e)
  {
    hide Waiting, Others;
    if a == [] {
      NobodyThere(event, e);
      assert a + b == b;
    } else {
      WaitingConcat(a[1..], b, event, e);
      Unfolded(a, event, e);
      Unfolded(a + b, event, e);
      TailOfConcat(a, b);
      Regroup([a[0]], Waiting(a[1..], event, e), Waiting(b, event, e));
      Regroup([a[0]], Others(a[1..], event, e), Others(b, event, e));
    }
  }

  /** The first process found is the first of those waiting. */
  lemma FirstWaiting(q: seq<int>, event: seq<int>, e: int, k: int)
    requires 0 <= k < |q| && 0 <= q[k] < |event| && event[q[k]] == e
    requires forall i :: 0 <= i < k ==> !(0 <= q[i] < |event| && event[q[i]] == e)
    ensures Waiting(q, event, e) == [q[k]] + Waiting(q[..k] + q[k + 1..], event, e)
    ensures Others(q, event, e) == Others(q[..k] + q[k + 1..], event, e)
  {
    hide Waiting, Others;
    var a, b := q[..k], q[k + 1..];
    NoneWaiting(a, event, e);
    WaitingConcat(a, b, event, e);
    WaitingConcat(a, [q[k]] + b, event, e);
    FoundFirst(q[k], b, event, e);
    assert q == a + ([q[k]] + b);
  }

  lemma FoundFirst(p: int, b: seq<int>, event: seq<int>, e: int)
    requires 0 <= p < |event| && event[p] == e
    ensures Waiting([p] + b, event, e) == [p] + Waiting(b, event, e) && Others([p] + b, event, e) == Others(b, event, e)
  {
    assert ([p] + b)[1..] == b;
  }

  lemma {:induction false} NoneWaiting(q: seq<int>, event: seq<int>, e: int)
    requires forall i :: 0 <= i < |q| ==> !(0 <= q[i] < |event| && event[q[i]] == e)
    ensures Waiting(q, event, e) == [] && Others(q, event, e) == q
  {
    if q != [] { NoneWaiting(q[1..], event, e); }
  }
}
