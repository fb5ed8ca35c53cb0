/** The timing wheel as a state machine: timers wait in the list of the slot in which they
    are due, and one list is scanned at each tick. */
module WheelSpec {
  import Chains

  const SLOTS: int := 32
  const WORD: int := 0x1_0000_0000
  const NULL: int := -1

  /** `due[t]` is the tick, counted from the start of time, for which timer `t` was armed
      last.  `path` begins with the timer that the scan in progress looks at next.  It is one
      that is on a list, or NULL, unless that timer was cancelled meanwhile: then the scan
      will follow the link that the timer was left with, and so on, to the last one. */
  datatype State = State(now: int, due: seq<int>, lists: seq<seq<int>>, scanning: bool, path: seq<int>)

  function Slot(tick: int): (q: int)
    ensures 0 <= q < SLOTS
  {
    tick % SLOTS
  }

  function Without(l: seq<int>, t: int): (r: seq<int>)
    ensures forall x :: x in r <==> x in l && x != t
  {
    if l == [] then [] else if l[0] == t then Without(l[1..], t) else [l[0]] + Without(l[1..], t)
  }

  /** The part of a list from `x` on. */
  function From(l: seq<int>, x: int): (r: seq<int>)
    ensures forall y :: y in r ==> y in l
    ensures r == [] <==> x !in l
    ensures r != [] ==> r[0] == x
  {
    if l == [] || l[0] == x then l else From(l[1..], x)
  }

  function Next(l: seq<int>, x: int): int {
    var f := From(l, x);
    if |f| >= 2 then f[1] else NULL
  }

  /** The part of a list up to `t`. */
  function Upto(l: seq<int>, t: int): (r: seq<int>)
    ensures r != [] || l == []
  {
    if l == [] then [] else if l[0] == t then [t] else [l[0]] + Upto(l[1..], t)
  }

  lemma {:induction false} UptoIs(l: seq<int>, t: int)
    ensures var r := Upto(l, t);
            && |r| <= |l| && r == l[..|r|] && (t !in l ==> r == l)
            && (t in l ==> |r| > 0 && r[|r| - 1] == t && t !in r[..|r| - 1])
  {
    if l != [] && l[0] != t {
      UptoIs(l[1..], t);
      var r1 := Upto(l[1..], t);
      assert t in l ==> ([l[0]] + r1)[..|r1|] == [l[0]] + r1[..|r1| - 1];
    }
  }

  predicate Shape(s: State) {
    |s.lists| == SLOTS && s.now >= 0 && s.path != []
  }

  predicate Timer(s: State, t: int) {
    0 <= t < |s.due|
  }

  predicate Armed(s: State, t: int)
    requires Shape(s) && Timer(s, t)
  {
    t in s.lists[Slot(s.due[t])]
  }

  /** Where the scan comes to a list. */
  function End(s: State): int
    requires Shape(s)
  {
    s.path[|s.path| - 1]
  }

  // ----- steps -----

  /** Takes a timer off its list.  Where the scan was to come to it, it now goes on from it. */
  function Disarm(s: State, t: int): (s': State)
    requires Shape(s) && Timer(s, t)
    ensures Shape(s') && |s'.due| == |s.due|
  {
    var q := Slot(s.due[t]);
    s.(lists := s.lists[q := Without(s.lists[q], t)],
       path := if t == End(s) && Armed(s, t) then s.path + [Next(s.lists[q], t)] else s.path)
  }

  /** Puts timer `t`, which is on no list, on that of tick `d`. */
  function PutIn(s: State, t: int, d: int): (s': State)
    requires Shape(s) && Timer(s, t)
    ensures Shape(s') && |s'.due| == |s.due|
  {
    s.(due := s.due[t := d], lists := s.lists[Slot(d) := [t] + s.lists[Slot(d)]], path := Upto(s.path, t))
  }

  function Arm(s: State, t: int, n: int): (s': State)
    requires Shape(s) && Timer(s, t)
    ensures Shape(s') && |s'.due| == |s.due|
  {
    PutIn(Disarm(s, t), t, s.now + n)
  }

  function StartTick(s: State): (s': State)
    requires Shape(s)
    ensures Shape(s') && |s'.due| == |s.due|
  {
    var l := s.lists[Slot(s.now + 1)];
    s.(now := s.now + 1, scanning := true, path := [if l == [] then NULL else l[0]])
  }

  /** The tick of timer `t` and this one look the same in 32 bits. */
  predicate SameTick(s: State, t: int)
    requires Timer(s, t)
  {
    s.due[t] % WORD == s.now % WORD
  }

  /** Whether the next step of the scan fires a timer. */
  predicate Fires(s: State)
    requires Shape(s)
  {
    s.scanning && |s.path| == 1 && Timer(s, s.path[0]) && SameTick(s, s.path[0])
  }

  /** Whether the next step of the scan comes to a timer of this tick that is on no list: the
      source then stores through its empty link, and calls its function. */
  predicate Broken(s: State)
    requires Shape(s)
  {
    s.scanning && |s.path| > 1 && Timer(s, s.path[0]) && SameTick(s, s.path[0])
  }

  /** Looks at one timer, or ends the scan.  It follows the link that the timer has now. */
  function Scan(s: State): (s': State)
    requires Shape(s)
    ensures Shape(s') && |s'.due| == |s.due|
  {
    var x := s.path[0];
    if |s.path| > 1 then s.(path := s.path[1..])
    else if !Timer(s, x) then s.(scanning := false)
    else
      var s1 := s.(path := [Next(s.lists[Slot(s.due[x])], x)]);
      if Fires(s) then Disarm(s1, x) else s1
  }

  datatype Action = DoArm(t: int, n: int) | DoCancel(t: int) | DoTick | DoScan

  /** A timer other than `t` is still to fire in this tick. */
  predicate DueLeft(s: State, t: int)
    requires Shape(s)
  {
    exists u :: u in From(s.lists[Slot(s.now)], End(s)) && u != t && Timer(s, u) && s.due[u] == s.now
  }

  /** When a timer can be armed: delays are at least one tick; a timer that the scan follows goes
      to the scanned slot, or no other is still to fire. */
  predicate CanArm(s: State, t: int, n: int)
    requires Shape(s)
  {
    if t in s.path then n % SLOTS == 0 || !DueLeft(s, t) else n >= 1
  }

  /** When a timer can be cancelled: the one that the scan comes to is not of this tick. */
  predicate CanCancel(s: State, t: int)
    requires Shape(s) && Timer(s, t)
  {
    t == End(s) ==> s.due[t] != s.now
  }

  /** What can happen: anything, in any order, until a scan breaks. */
  predicate Allowed(s: State, a: Action)
    requires Shape(s)
  {
    match a
    case DoArm(t, n) => Timer(s, t) && 0 <= n < WORD
    case DoCancel(t) => Timer(s, t)
    case DoTick => !s.scanning
    case DoScan => s.scanning && !Broken(s)
  }

  predicate Harmless(s: State, a: Action)
    requires Shape(s) && Allowed(s, a)
  {
    match a
    case DoArm(t, n) => CanArm(s, t, n)
    case DoCancel(t) => CanCancel(s, t)
    case _ => true
  }

  function Step(s: State, a: Action): (s': State)
    requires Shape(s) && Allowed(s, a)
    ensures Shape(s') && |s'.due| == |s.due|
  {
    match a
    case DoArm(t, n) => Arm(s, t, n)
    case DoCancel(t) => Disarm(s, t)
    case DoTick => StartTick(s)
    case DoScan => Scan(s)
  }

  // ----- what every step keeps -----

  predicate ListOk(s: State, q: int)
    requires Shape(s) && 0 <= q < SLOTS
  {
    Chains.Distinct(s.lists[q]) && forall t :: t in s.lists[q] ==> Timer(s, t) && Slot(s.due[t]) == q
  }

  /** An armed timer is due later, or it is due now and the scan has yet to come to it. */
  predicate DueOk(s: State, t: int)
    requires Shape(s) && Timer(s, t)
  {
    Armed(s, t) ==>
      s.due[t] < s.now + WORD
          && (s.due[t] > s.now || (s.scanning && s.due[t] == s.now && t in From(s.lists[Slot(s.now)], End(s))))
  }

  /** The timers on the path are on no list, but for the last, and there is a path only during
      a scan. */
  predicate PathOk(s: State) {
    && Shape(s) && Chains.Distinct(s.path)
    && (forall i :: 0 <= i < |s.path| - 1 ==> Timer(s, s.path[i]) && !Armed(s, s.path[i]))
    && (End(s) == NULL || (Timer(s, End(s)) && Armed(s, End(s))))
    && (!s.scanning ==> s.path == [NULL])
  }

  /** Those that are on no list are not of this tick. */
  predicate Clear(s: State) {
    forall i :: 0 <= i < |s.path| - 1 && Timer(s, s.path[i]) ==> s.now < s.due[s.path[i]] < s.now + WORD
  }

  /** Each timer is on the list of its slot and on no other. */
  predicate InSlots(s: State) {
    Shape(s) && forall q :: 0 <= q < SLOTS ==> ListOk(s, q)
  }

  /** The timers are in their places, whether all of them will fire or not. */
  predicate Placed(s: State) {
    InSlots(s) && PathOk(s)
  }

  predicate Inv(s: State) {
    Placed(s) && Clear(s) && forall t :: 0 <= t < |s.due| ==> DueOk(s, t)
  }

  lemma {:induction false} WithoutDistinct(l: seq<int>, t: int)
    requires Chains.Distinct(l)
    ensures Chains.Distinct(Without(l, t))
  {
    if l != [] {
      WithoutDistinct(l[1..], t);
      var w := Without(l[1..], t);
      assert l[0] !in l[1..];
      assert forall i :: 0 <= i < |w| ==> w[i] in w;
    }
  }

  lemma {:induction false} WithoutAbsent(l: seq<int>, t: int)
    requires t !in l
    ensures Without(l, t) == l
  {
    if l != [] { WithoutAbsent(l[1..], t); }
  }

  lemma {:induction false} FromWithout(l: seq<int>, x: int, t: int)
    requires x != t
    ensures From(Without(l, t), x) == Without(From(l, x), t)
  {
    if l != [] && l[0] != x { FromWithout(l[1..], x, t); }
  }

  lemma {:induction false} FromNext(l: seq<int>, x: int)
    requires Chains.Distinct(l) && x in l && NULL !in l
    ensures From(l, x) == [x] + From(l, Next(l, x))
  {
    if l[0] != x {
      FromNext(l[1..], x);
    } else if |l| > 1 {
      assert From(l, l[1]) == From(l[1..], l[1]);
    }
  }

  lemma DisarmInSlots(s: State, t: int)
    requires InSlots(s) && Timer(s, t)
    ensures InSlots(Disarm(s, t)) && !Armed(Disarm(s, t), t)
  {
    hide Without, Next;
    var s', p := Disarm(s, t), Slot(s.due[t]);
    assert ListOk(s, p);
    WithoutDistinct(s.lists[p], t);
    forall q | 0 <= q < SLOTS ensures ListOk(s', q) {
      assert ListOk(s, q);
    }
  }

  lemma DisarmOthers(s: State, t: int, u: int)
    requires Shape(s) && Timer(s, t) && Timer(s, u) && u != t
    ensures Armed(Disarm(s, t), u) <==> Armed(s, u)
  {
    hide Without, Next;
  }

  /** The timer behind `t` on its list. */
  lemma NextOnList(s: State, t: int)
    requires InSlots(s) && Timer(s, t) && Armed(s, t)
    ensures var m := Next(s.lists[Slot(s.due[t])], t);
            m != t && (m == NULL || (Timer(s, m) && Armed(s, m) && Slot(s.due[m]) == Slot(s.due[t])))
  {
    hide Next;
    assert ListOk(s, Slot(s.due[t]));
    NextApart(s.lists[Slot(s.due[t])], t);
  }

  lemma DisarmPath(s: State, t: int)
    requires InSlots(s) && PathOk(s) && Timer(s, t)
    ensures PathOk(Disarm(s, t))
  {
    hide Without, Next, InSlots;
    var s' := Disarm(s, t);
    DisarmInSlots(s, t);
    if Armed(s, t) { NextOnList(s, t); }
    forall i | 0 <= i < |s'.path| - 1 ensures Timer(s', s'.path[i]) && !Armed(s', s'.path[i]) {
      if s'.path[i] != t { DisarmOthers(s, t, s'.path[i]); }
    }
    var e := End(s');
    if Timer(s, e) && e != t { DisarmOthers(s, t, e); }
  }

  /** What the scan has still to look at when a timer is taken off. */
  lemma DisarmFrom(s: State, t: int)
    requires InSlots(s) && PathOk(s) && Timer(s, t)
    ensures var s', l := Disarm(s, t), s.lists[Slot(s.now)];
            forall u :: u in From(s'.lists[Slot(s.now)], End(s')) <==> u in From(l, End(s)) && u != t
  {
    hide Without, From, Next;
    var s', q, l := Disarm(s, t), Slot(s.now), s.lists[Slot(s.now)];
    assert ListOk(s, q);
    if t == End(s) && Armed(s, t) {
      NextOnList(s, t);
      var m := Next(s.lists[Slot(s.due[t])], t);
      if Slot(s.due[t]) == q {
        FromWithout(l, m, t);
        FromNext(l, t);
        FromDistinct(l, t);
        assert forall i :: 0 <= i < |From(l, m)| ==> From(l, t)[i + 1] == From(l, m)[i];
      } else {
        assert t !in l && m !in l;
      }
    } else if Slot(s.due[t]) == q && t != End(s) {
      FromWithout(l, End(s), t);
    }
  }

  /** Taking one off makes no other timer late. */
  lemma DisarmDue(s: State, t: int, u: int)
    requires Placed(s) && Timer(s, t) && Timer(s, u) && DueOk(s, u)
    ensures DueOk(Disarm(s, t), u)
  {
    hide Without, From, Next, ListOk;
    DisarmInSlots(s, t);
    DisarmFrom(s, t);
    if u != t { DisarmOthers(s, t, u); }
  }

  /** Cancelling keeps the invariant under this condition and no other. */
  lemma CancelKeepsIff(s: State, t: int)
    requires Inv(s) && Timer(s, t)
    ensures Inv(Disarm(s, t)) <==> CanCancel(s, t)
    ensures !Armed(Disarm(s, t), t)
  {
    hide Without, From, Next, ListOk;
    var s' := Disarm(s, t);
    DisarmInSlots(s, t);
    DisarmPath(s, t);
    forall u | 0 <= u < |s'.due| ensures DueOk(s', u) {
      DisarmDue(s, t, u);
    }
    assert DueOk(s, t);
    if t == End(s) {
      assert s'.path[|s'.path| - 2] == t;
    }
  }

  /** A cancelled timer is off its list, and all others are as they were. */
  lemma CancelDisarms(s: State, t: int)
    requires InSlots(s) && Timer(s, t)
    ensures var s' := Step(s, DoCancel(t));
            && !Armed(s', t) && s'.due == s.due && s'.now == s.now
            && forall u :: Timer(s, u) && u != t ==> (Armed(s', u) <==> Armed(s, u))
  {
  }

  /** An armed timer is first on the list of its slot. */
  lemma ArmedIsFirst(s: State, t: int, n: int)
    requires InSlots(s) && Timer(s, t) && 0 <= n < WORD
    ensures var s' := Step(s, DoArm(t, n));
            && s'.due == s.due[t := s.now + n] && s'.now == s.now && s'.lists[Slot(s.now + n)] != []
            && s'.lists[Slot(s.now + n)][0] == t
  {
  }

  lemma NowhereElse(s: State, t: int, q: int)
    requires InSlots(s) && Timer(s, t) && !Armed(s, t) && 0 <= q < SLOTS
    ensures t !in s.lists[q]
  {
    assert ListOk(s, q);
  }

  lemma PutInSlots(s: State, t: int, d: int)
    requires InSlots(s) && Timer(s, t) && !Armed(s, t)
    ensures InSlots(PutIn(s, t, d)) && Armed(PutIn(s, t, d), t)
  {
    hide Upto;
    var s' := PutIn(s, t, d);
    forall q | 0 <= q < SLOTS ensures ListOk(s', q) {
      assert ListOk(s, q);
      NowhereElse(s, t, q);
    }
  }

  lemma PutOthers(s: State, t: int, d: int, u: int)
    requires InSlots(s) && Timer(s, t) && Timer(s, u) && u != t
    ensures var s' := PutIn(s, t, d); s'.due[u] == s.due[u] && (Armed(s', u) <==> Armed(s, u))
  {
    hide Upto;
  }

  lemma PutPath(s: State, t: int, d: int)
    requires InSlots(s) && PathOk(s) && Timer(s, t) && !Armed(s, t)
    ensures PathOk(PutIn(s, t, d))
  {
    hide Upto, InSlots, ListOk;
    var s' := PutIn(s, t, d);
    PutInSlots(s, t, d);
    UptoIs(s.path, t);
    forall i | 0 <= i < |s'.path| - 1 ensures Timer(s', s'.path[i]) && !Armed(s', s'.path[i]) {
      assert s'.path[i] == s.path[i] && s'.path[i] != t;
      PutOthers(s, t, d, s'.path[i]);
    }
    var e := End(s');
    if Timer(s, e) && e != t { PutOthers(s, t, d, e); }
  }

  lemma ArmInSlots(s: State, t: int, n: int)
    requires InSlots(s) && PathOk(s) && Timer(s, t) && 0 <= n
    ensures var s' := Arm(s, t, n);
            && InSlots(s') && PathOk(s') && Armed(s', t) && s'.due[t] == s.now + n
            && s'.now == s.now && s'.scanning == s.scanning
  {
    hide Without, ListOk, Next, Upto;
    DisarmInSlots(s, t);
    DisarmPath(s, t);
    PutInSlots(Disarm(s, t), t, s.now + n);
    PutPath(Disarm(s, t), t, s.now + n);
  }

  /** Arming changes nothing for the other timers. */
  lemma ArmOthers(s: State, t: int, n: int, u: int)
    requires InSlots(s) && Timer(s, t) && Timer(s, u) && u != t && 0 <= n
    ensures var s' := Arm(s, t, n); s'.due[u] == s.due[u] && (Armed(s', u) <==> Armed(s, u))
  {
    hide Without, ListOk, Next, Upto;
    DisarmInSlots(s, t);
    DisarmOthers(s, t, u);
    PutOthers(Disarm(s, t), t, s.now + n, u);
  }

  /** Where the scan comes to a list when a timer has been armed. */
  lemma ArmEnd(s: State, t: int, n: int)
    requires InSlots(s) && PathOk(s) && Timer(s, t) && 0 <= n
    ensures var s' := Arm(s, t, n);
            && (if t in s.path then End(s') == t else s'.path == s.path)
            && (forall i :: 0 <= i < |s'.path| - 1 ==> i < |s.path| - 1 && s'.path[i] == s.path[i])
  {
    hide Without, InSlots, Next, ListOk;
    var s1 := Disarm(s, t);
    if Armed(s, t) { NextOnList(s, t); }
    assert t in s1.path <==> t in s.path;
    if t in s.path && t == End(s) { assert s1.path[|s.path| - 1] == t; }
    UptoIs(s1.path, t);
  }

  lemma ArmKeeps(s: State, t: int, n: int)
    requires Inv(s) && Timer(s, t) && 0 <= n < WORD && CanArm(s, t, n)
    ensures Inv(Arm(s, t, n)) && Armed(Arm(s, t, n), t) && Arm(s, t, n).due[t] == s.now + n
  {
    ArmKeepsIff(s, t, n);
    ArmInSlots(s, t, n);
  }

  /** Arming keeps the invariant under these conditions and no others. */
  lemma ArmKeepsIff(s: State, t: int, n: int)
    requires Inv(s) && Timer(s, t) && 0 <= n < WORD
    ensures Inv(Arm(s, t, n)) <==> CanArm(s, t, n)
  {
    if t in s.path { ArmFollowed(s, t, n); } else { ArmOther(s, t, n); }
  }

  lemma ArmClear(s: State, t: int, n: int)
    requires Inv(s) && Timer(s, t) && 0 <= n < WORD
    ensures Clear(Arm(s, t, n))
  {
    hide ListOk, Arm, DueOk;
    var s' := Arm(s, t, n);
    ArmInSlots(s, t, n);
    ArmEnd(s, t, n);
    forall i | 0 <= i < |s'.path| - 1 ensures s'.now < s'.due[s'.path[i]] < s'.now + WORD {
      assert s'.path[i] == s.path[i] && s'.path[i] != t;
      ArmOthers(s, t, n, s.path[i]);
    }
  }

  /** What the scan has still to look at when a timer is armed that it does not follow. */
  lemma ArmFrom(s: State, t: int, n: int)
    requires InSlots(s) && PathOk(s) && Timer(s, t) && t !in s.path && 0 <= n
    ensures var s', l := Arm(s, t, n), s.lists[Slot(s.now)];
            forall u :: u in From(s'.lists[Slot(s.now)], End(s')) <==> u in From(l, End(s)) && u != t
  {
    hide ListOk, From, Arm, Disarm, Armed;
    DisarmFrom(s, t);
    NotFollowed(s, t);
    ArmEnd(s, t, n);
    ArmList(s, t, n, Slot(s.now));
    FromPush(Disarm(s, t).lists[Slot(s.now)], t, End(s));
  }

  lemma NotFollowed(s: State, t: int)
    requires Shape(s) && Timer(s, t) && t !in s.path
    ensures End(s) != t && Disarm(s, t).path == s.path
  {
  }

  lemma FromPush(l: seq<int>, t: int, x: int)
    requires t != x
    ensures From([t] + l, x) == From(l, x)
  {
  }

  /** The timer `u` is still to fire in this tick, and the scan is led away from it. */
  predicate Loses(s: State, t: int, n: int, u: int)
    requires Shape(s) && Timer(s, u)
  {
    t in s.path && n % SLOTS != 0 && Armed(s, u) && s.due[u] == s.now
  }

  /** Arming makes no other timer late but those that it loses. */
  lemma ArmDue(s: State, t: int, n: int, u: int)
    requires Placed(s) && Timer(s, t) && Timer(s, u) && u != t && 0 <= n && DueOk(s, u)
    ensures DueOk(Arm(s, t, n), u) <==> !Loses(s, t, n, u)
  {
    hide Without, From, ListOk, Arm, PathOk, End;
    ArmInSlots(s, t, n);
    ArmOthers(s, t, n, u);
    if t in s.path {
      FollowedScans(s, t);
      ArmedFollowed(s, t, n);
    } else {
      ArmFrom(s, t, n);
    }
  }

  /** What it takes for a timer that is armed to be in time. */
  lemma ArmedDue(s: State, t: int, n: int)
    requires Placed(s) && Timer(s, t) && 0 <= n < WORD
    ensures DueOk(Arm(s, t, n), t) <==> n >= 1 || t in s.path
  {
    hide Without, From, ListOk, Arm, PathOk, End;
    ArmInSlots(s, t, n);
    if t in s.path {
      FollowedScans(s, t);
      ArmedFollowed(s, t, n);
    } else {
      ArmFrom(s, t, n);
    }
  }

  lemma ArmOther(s: State, t: int, n: int)
    requires Inv(s) && Timer(s, t) && 0 <= n < WORD && t !in s.path
    ensures Inv(Arm(s, t, n)) <==> n >= 1
  {
    hide Without, From, ListOk, Arm, Armed, PathOk, Clear, End, DueOk;
    var s' := Arm(s, t, n);
    ArmInSlots(s, t, n);
    ArmClear(s, t, n);
    ArmedDue(s, t, n);
    forall u | 0 <= u < |s'.due| && u != t ensures DueOk(s', u) {
      ArmDue(s, t, n, u);
    }
  }

  lemma DueLeftIff(s: State, t: int)
    requires Inv(s)
    ensures DueLeft(s, t) <==> exists u :: Timer(s, u) && u != t && Armed(s, u) && s.due[u] == s.now
  {
    hide From;
    assert ListOk(s, Slot(s.now));
    forall u | Timer(s, u) && Armed(s, u) && s.due[u] == s.now ensures u in From(s.lists[Slot(s.now)], End(s)) {
      assert DueOk(s, u);
    }
  }

  lemma SameSlot(now: int, n: int)
    ensures Slot(now + n) == Slot(now) <==> n % SLOTS == 0
  {
  }

  lemma FromFirst(l: seq<int>, t: int)
    requires l != [] && l[0] == t
    ensures From(l, t) == l
  {
  }

  /** What the scan has still to look at when a timer is armed that it follows. */
  lemma ArmedFollowed(s: State, t: int, n: int)
    requires InSlots(s) && PathOk(s) && Timer(s, t) && t in s.path && 0 <= n
    ensures var s', q := Arm(s, t, n), Slot(s.now);
            From(s'.lists[q], End(s')) == if n % SLOTS == 0 then s'.lists[q] else []
  {
    hide ListOk, PathOk, Slot, From, Arm, Disarm, Armed, End;
    ArmEnd(s, t, n);
    ArmList(s, t, n, Slot(s.now));
    SameSlot(s.now, n);
    if n % SLOTS == 0 { FromFirst(Arm(s, t, n).lists[Slot(s.now)], t); }
  }

  lemma ArmList(s: State, t: int, n: int, q: int)
    requires InSlots(s) && Timer(s, t) && 0 <= n && 0 <= q < SLOTS
    ensures var l, l' := Disarm(s, t).lists[q], Arm(s, t, n).lists[q];
            t !in l && l' == if q == Slot(s.now + n) then [t] + l else l
  {
    hide Without, Next, ListOk, Upto;
    DisarmInSlots(s, t);
    NowhereElse(Disarm(s, t), t, q);
  }

  lemma ArmFollowed(s: State, t: int, n: int)
    requires Inv(s) && Timer(s, t) && 0 <= n < WORD && t in s.path
    ensures Inv(Arm(s, t, n)) <==> n % SLOTS == 0 || !DueLeft(s, t)
  {
    hide Without, From, ListOk, Arm, Armed, PathOk, Clear, End, DueLeft, DueOk;
    var s' := Arm(s, t, n);
    ArmInSlots(s, t, n);
    ArmClear(s, t, n);
    ArmedDue(s, t, n);
    DueLeftIff(s, t);
    forall u | 0 <= u < |s'.due| && u != t ensures DueOk(s', u) <==> !Loses(s, t, n, u) {
      ArmDue(s, t, n, u);
    }
    if n % SLOTS != 0 && DueLeft(s, t) {
      var u :| Timer(s, u) && u != t && Armed(s, u) && s.due[u] == s.now;
      assert Loses(s, t, n, u) && !DueOk(s', u);
    }
  }

  lemma FollowedScans(s: State, t: int)
    requires PathOk(s) && Timer(s, t) && t in s.path
    ensures s.scanning
  {
  }

  lemma TickPlaces(s: State)
    requires Placed(s) && !s.scanning
    ensures Placed(StartTick(s))
  {
    var s', l := StartTick(s), s.lists[Slot(s.now + 1)];
    assert ListOk(s, Slot(s.now + 1)) && (l != [] ==> l[0] in l);
    forall q | 0 <= q < SLOTS ensures ListOk(s', q) {
      assert ListOk(s, q);
    }
  }

  lemma TickDue(s: State, t: int)
    requires Placed(s) && !s.scanning && Timer(s, t) && DueOk(s, t)
    ensures DueOk(StartTick(s), t)
  {
    assert ListOk(s, Slot(s.now + 1));
  }

  lemma TickKeeps(s: State)
    requires Inv(s) && !s.scanning
    ensures Inv(StartTick(s))
  {
    hide ListOk, PathOk, DueOk;
    TickPlaces(s);
    forall t | 0 <= t < |s.due| ensures DueOk(StartTick(s), t) {
      TickDue(s, t);
    }
  }

  /** A timer that is in time and has not been scanned is of this tick when it looks so. */
  lemma InTime(s: State, t: int)
    requires Timer(s, t) && s.now <= s.due[t] < s.now + WORD
    ensures SameTick(s, t) <==> s.due[t] == s.now
  {
  }

  /** The scan moves on by one timer, before it may fire it. */
  function Passed(s: State): (s': State)
    requires Shape(s) && Timer(s, s.path[0])
    ensures Shape(s')
  {
    var x := s.path[0];
    s.(path := if |s.path| > 1 then s.path[1..] else [Next(s.lists[Slot(s.due[x])], x)])
  }

  lemma ScanIs(s: State)
    requires PathOk(s) && s.scanning
    ensures s.path[0] == NULL ==> s.path == [NULL] && Scan(s) == s.(scanning := false)
    ensures s.path[0] != NULL ==>
              Timer(s, s.path[0]) && Scan(s) == if Fires(s) then Disarm(Passed(s), s.path[0]) else Passed(s)
    ensures |s.path| == 1 && s.path[0] != NULL ==> Armed(s, s.path[0])
  {
  }

  lemma PassedPlaces(s: State)
    requires Placed(s) && s.scanning && s.path[0] != NULL
    ensures Timer(s, s.path[0]) && Placed(Passed(s))
  {
    hide From, Without, Next;
    var s' := Passed(s);
    if |s.path| == 1 { NextOnList(s, s.path[0]); } else { assert End(s') == End(s); }
    forall p | 0 <= p < SLOTS ensures ListOk(s', p) {
      assert ListOk(s, p);
    }
    forall i | 0 <= i < |s'.path| - 1 ensures Timer(s', s'.path[i]) && !Armed(s', s'.path[i]) {
      assert s'.path[i] == s.path[i + 1];
    }
  }

  lemma ScanPlaces(s: State)
    requires Placed(s) && s.scanning
    ensures Placed(Scan(s))
    ensures Fires(s) ==> Armed(s, s.path[0]) && !Armed(Scan(s), s.path[0])
  {
    hide InSlots, Disarm, Passed, Armed, Scan, ListOk;
    ScanIs(s);
    if s.path[0] == NULL {
      EndPlaces(s);
    } else {
      PassedPlaces(s);
      DisarmInSlots(Passed(s), s.path[0]);
      DisarmPath(Passed(s), s.path[0]);
    }
  }

  lemma EndPlaces(s: State)
    requires Placed(s) && s.path == [NULL]
    ensures Placed(s.(scanning := false))
  {
    forall q | 0 <= q < SLOTS ensures ListOk(s.(scanning := false), q) {
      assert ListOk(s, q);
    }
  }

  /** No timer that is in time is passed over by the scan. */
  lemma ScanDue(s: State, t: int)
    requires Placed(s) && s.scanning && Timer(s, t) && DueOk(s, t)
    ensures DueOk(Scan(s), t)
    ensures !Scan(s).scanning && Armed(s, t) ==> s.due[t] > s.now
  {
    hide Without, From, Next, Disarm;
    ScanIs(s);
    if s.path[0] == NULL {
      assert ListOk(s, Slot(s.now)) && From(s.lists[Slot(s.now)], NULL) == [];
    } else {
      PassedPlaces(s);
      PassedDue(s, t);
      if Fires(s) {
        if t == s.path[0] {
          DisarmInSlots(Passed(s), t);
        } else {
          DisarmDue(Passed(s), s.path[0], t);
        }
        DisarmNow(Passed(s), s.path[0]);
      }
    }
  }

  lemma PassedDue(s: State, t: int)
    requires Placed(s) && s.scanning && s.path[0] != NULL && Timer(s, s.path[0]) && Timer(s, t) && DueOk(s, t)
    ensures !(Fires(s) && t == s.path[0]) ==> DueOk(Passed(s), t)
  {
    hide Without, From, Next, ListOk;
    if |s.path| > 1 {
      assert End(Passed(s)) == End(s);
    } else {
      var x := s.path[0];
      NextFrom(s, x, Next(s.lists[Slot(s.due[x])], x));
      if t == x && s.due[t] == s.now { InTime(s, t); }
    }
  }

  lemma DisarmNow(s: State, t: int)
    requires Shape(s) && Timer(s, t)
    ensures var s' := Disarm(s, t); s'.now == s.now && s'.due == s.due && s'.scanning == s.scanning
  {
  }

  lemma ScanKeeps(s: State)
    requires Inv(s) && s.scanning
    ensures Inv(Scan(s)) && !Broken(s)
    ensures Fires(s) ==> Armed(s, s.path[0]) && !Armed(Scan(s), s.path[0])
    ensures !Scan(s).scanning ==> forall t :: Timer(s, t) && Armed(s, t) ==> s.due[t] > s.now
  {
    hide From, Without, Next, ListOk, PathOk, DueOk, Armed;
    ScanPlaces(s);
    ScanClear(s);
    forall t | 0 <= t < |s.due| ensures DueOk(Scan(s), t) && (!Scan(s).scanning && Armed(s, t) ==> s.due[t] > s.now) {
      ScanDue(s, t);
    }
  }

  lemma ScanClear(s: State)
    requires Inv(s) && s.scanning
    ensures Clear(Scan(s)) && !Broken(s)
  {
    hide From, Without, Next, InSlots, DueOk;
    if |s.path| > 1 {
      InTime(s, s.path[0]);
      forall i | 0 <= i < |s.path[1..]| - 1 ensures s.now < s.due[s.path[1..][i]] < s.now + WORD {
        assert s.path[1..][i] == s.path[i + 1];
      }
    } else if s.path[0] != NULL {
      InvSlots(s);
      NextOnList(s, s.path[0]);
    }
  }

  lemma InvSlots(s: State)
    requires Inv(s)
    ensures InSlots(s)
  {
  }

  lemma NextApart(l: seq<int>, x: int)
    requires Chains.Distinct(l) && x in l && NULL !in l
    ensures Next(l, x) != x && (Next(l, x) != NULL ==> Next(l, x) in l)
  {
    FromNext(l, x);
    FromDistinct(l, x);
    var f := From(l, x);
    if |f| >= 2 { assert f[0] != f[1] && f[1] in f; }
  }

  lemma {:induction false} FromDistinct(l: seq<int>, x: int)
    requires Chains.Distinct(l)
    ensures Chains.Distinct(From(l, x))
  {
    if l != [] && l[0] != x { FromDistinct(l[1..], x); }
  }

  lemma NextFrom(s: State, x: int, m: int)
    requires InSlots(s) && Timer(s, x) && Armed(s, x) && m == Next(s.lists[Slot(s.due[x])], x)
    ensures var l := s.lists[Slot(s.now)]; forall t :: t in From(l, x) ==> t == x || t in From(l, m)
  {
    hide From, Next;
    var l := s.lists[Slot(s.now)];
    assert ListOk(s, Slot(s.now)) && ListOk(s, Slot(s.due[x]));
    if x in l { FromNext(l, x); }
  }

  lemma StepKeeps(s: State, a: Action)
    requires Inv(s) && Allowed(s, a) && Harmless(s, a)
    ensures Inv(Step(s, a))
  {
    match a
    case DoArm(t, n) => ArmKeeps(s, t, n);
    case DoCancel(t) => CancelKeepsIff(s, t);
    case DoTick => TickKeeps(s);
    case DoScan => ScanKeeps(s);
  }

  /** In every run each timer stays in its place, also where others have been lost. */
  lemma StepPlaces(s: State, a: Action)
    requires Placed(s) && Allowed(s, a)
    ensures Placed(Step(s, a))
  {
    match a
    case DoArm(t, n) => ArmInSlots(s, t, n);
    case DoCancel(t) =>
      DisarmInSlots(s, t);
      DisarmPath(s, t);
    case DoTick => TickPlaces(s);
    case DoScan => ScanPlaces(s);
  }

  // ----- runs -----

  predicate Touches(a: Action, t: int) {
    match a
    case DoArm(u, n) => u == t
    case DoCancel(u) => u == t
    case _ => false
  }

  /** The action neither arms nor cancels `t`, nor leads a scan away from it. */
  predicate Spares(s: State, a: Action, t: int)
    requires Shape(s) && Timer(s, t)
  {
    !Touches(a, t) && (a.DoArm? ==> !Loses(s, a.t, a.n, t))
  }

  /** A run: actions one after the other that spare `t`, whatever they do to other timers. */
  predicate Runs(s: State, run: seq<Action>, t: int)
    requires Shape(s) && Timer(s, t)
    decreases |run|
  {
    run == [] || (Allowed(s, run[0]) && Spares(s, run[0], t) && Runs(Step(s, run[0]), run[1..], t))
  }

  function Last(s: State, run: seq<Action>, t: int): (s': State)
    requires Shape(s) && Timer(s, t) && Runs(s, run, t)
    ensures Shape(s') && |s'.due| == |s.due|
    decreases |run|
  {
    if run == [] then s else Last(Step(s, run[0]), run[1..], t)
  }

  /** The ticks at which timer `t` fires in a run. */
  function Firings(s: State, run: seq<Action>, t: int): seq<int>
    requires Shape(s) && Timer(s, t) && Runs(s, run, t)
    decreases |run|
  {
    if run == [] then []
    else
      (if run[0] == DoScan && Fires(s) && s.path[0] == t then [s.now] else [])
      + Firings(Step(s, run[0]), run[1..], t)
  }

  /** One step seen from a timer that it spares. */
  lemma StepOfOthers(s: State, a: Action, t: int)
    requires Placed(s) && Allowed(s, a) && Timer(s, t) && Spares(s, a, t)
    ensures var s' := Step(s, a);
            && s'.due[t] == s.due[t] && s'.now >= s.now
            && (Armed(s', t) <==> Armed(s, t) && !(a == DoScan && Fires(s) && s.path[0] == t))
            && (DueOk(s, t) ==> DueOk(s', t))
  {
    hide Arm, Disarm, Scan, ListOk, DueOk, PathOk, Clear;
    match a
    case DoArm(u, n) =>
      ArmOthers(s, u, n, t);
      ArmNow(s, u, n);
      if DueOk(s, t) { ArmDue(s, u, n, t); }
    case DoCancel(u) =>
      DisarmOthers(s, u, t);
      DisarmNow(s, u);
      if DueOk(s, t) { DisarmDue(s, u, t); }
    case DoTick =>
      if DueOk(s, t) { TickDue(s, t); }
    case DoScan =>
      ScanOthers(s, t);
      if DueOk(s, t) { ScanDue(s, t); }
  }

  lemma ArmNow(s: State, t: int, n: int)
    requires Shape(s) && Timer(s, t)
    ensures Arm(s, t, n).now == s.now
  {
  }

  lemma ScanOthers(s: State, t: int)
    requires Placed(s) && s.scanning && Timer(s, t)
    ensures var s' := Scan(s);
            s'.due == s.due && s'.now == s.now && (Armed(s', t) <==> Armed(s, t) && !(Fires(s) && s.path[0] == t))
  {
    hide InSlots, Disarm, Passed, Scan, ListOk;
    ScanIs(s);
    ScanPlaces(s);
    if s.path[0] != NULL {
      PassedLists(s);
      DisarmNow(Passed(s), s.path[0]);
      if t != s.path[0] { DisarmOthers(Passed(s), s.path[0], t); }
    }
  }

  lemma PassedLists(s: State)
    requires Shape(s) && Timer(s, s.path[0])
    ensures Passed(s).lists == s.lists && Passed(s).due == s.due && Passed(s).now == s.now
  {
  }

  /** As long as it is spared, an armed timer in time either has not fired, is still armed and
      its tick is not over, or has fired exactly once, at the tick for which it was armed; an
      unarmed timer does not fire.  Other timers may be lost on the way. */
  lemma {:induction false} FiresOnce(s: State, run: seq<Action>, t: int)
    requires Placed(s) && Timer(s, t) && DueOk(s, t) && Runs(s, run, t)
    ensures var s', f := Last(s, run, t), Firings(s, run, t);
            Placed(s') && DueOk(s', t) && s'.due[t] == s.due[t] &&
            if !Armed(s, t) then f == [] && !Armed(s', t)
            else (f == [] && Armed(s', t) && (s'.now < s.due[t] || (s'.now == s.due[t] && s'.scanning)))
                 || (f == [s.due[t]] && !Armed(s', t) && s'.now >= s.due[t])
    decreases |run|
  {
    hide ListOk, PathOk, Fires;
    if run != [] {
      var s1 := Step(s, run[0]);
      StepPlaces(s, run[0]);
      StepOfOthers(s, run[0], t);
      FiresOnce(s1, run[1..], t);
      NowGrows(s1, run[1..], t);
      if run[0] == DoScan { FiredInTime(s, t); }
    }
  }

  lemma FiredInTime(s: State, t: int)
    requires Placed(s) && Timer(s, t) && DueOk(s, t) && s.scanning
    ensures Fires(s) && s.path[0] == t ==> Armed(s, t) && s.due[t] == s.now
  {
    if Fires(s) && s.path[0] == t { InTime(s, t); }
  }

  lemma {:induction false} NowGrows(s: State, run: seq<Action>, t: int)
    requires Shape(s) && Timer(s, t) && Runs(s, run, t)
    ensures Last(s, run, t).now >= s.now
    decreases |run|
  {
    if run != [] { NowGrows(Step(s, run[0]), run[1..], t); }
  }

  /** A timer armed with `n` ticks at tick `now` has fired exactly once, at `now + n`, by
      the end of that tick, and not before, as long as it is spared.  The delay is at least one
      tick, unless the scan has yet to come to the timer. */
  lemma ArmedTimerFires(s: State, t: int, n: int, run: seq<Action>)
    requires Placed(s) && Timer(s, t) && 0 <= n < WORD && (n >= 1 || t in s.path) && Runs(Arm(s, t, n), run, t)
    ensures var s' := Last(Arm(s, t, n), run, t);
            Firings(Arm(s, t, n), run, t) ==
              if s'.now > s.now + n || (s'.now == s.now + n && !s'.scanning) || !Armed(s', t) then [s.now + n] else []
  {
    hide ListOk, PathOk, Arm, Armed, DueOk, Runs;
    ArmInSlots(s, t, n);
    ArmedDue(s, t, n);
    ArmPlaces(s, t, n);
    FiresOnce(Arm(s, t, n), run, t);
  }

  lemma ArmPlaces(s: State, t: int, n: int)
    requires Placed(s) && Timer(s, t) && 0 <= n
    ensures Placed(Arm(s, t, n))
  {
    ArmInSlots(s, t, n);
  }

  // ----- what happens otherwise -----

  /** Up to `k` turns of the scan. */
  function Scans(s: State, k: nat): (s': State)
    requires Shape(s)
    ensures Shape(s') && |s'.due| == |s.due|
    decreases k
  {
    if k == 0 || !s.scanning then s else Scans(Scan(s), k - 1)
  }

  lemma SlotMultiple(x: int, j: int)
    ensures Slot(x + SLOTS * j) == Slot(x)
  {
    assert x + SLOTS * j == SLOTS * (x / SLOTS + j) + x % SLOTS;
  }

  lemma WordMultiple(x: int)
    ensures (x + WORD) % WORD == x % WORD
  {
    assert x + WORD == WORD * (x / WORD + 1) + x % WORD;
  }

  lemma OtherTick(s: State, t: int)
    requires Timer(s, t) && Slot(s.due[t]) != Slot(s.now)
    ensures !SameTick(s, t)
  {
    if SameTick(s, t) {
      var k := s.due[t] / WORD - s.now / WORD;
      assert s.due[t] == s.now + WORD * k == s.now + SLOTS * (0x800_0000 * k);
      SlotMultiple(s.now, 0x800_0000 * k);
    }
  }

  /** How many turns are left of a scan that fires nobody. */
  function Turns(s: State): nat
    requires Shape(s)
  {
    |s.path| + if Timer(s, End(s)) then |From(s.lists[Slot(s.due[End(s)])], End(s))| else 0
  }

  /** A scan that comes to another slot fires nobody on its way to the end of that list. */
  lemma {:induction false} OffTheSlot(s: State, k: nat)
    requires Placed(s) && s.scanning
    requires End(s) != NULL ==> Slot(s.due[End(s)]) != Slot(s.now)
    ensures var s' := Scans(s, k); s'.lists == s.lists && s'.due == s.due && s'.now == s.now
    ensures k >= Turns(s) ==> !Scans(s, k).scanning
    decreases k
  {
    hide From, Without, Next, SameTick;
    if k > 0 {
      if |s.path| == 1 && s.path[0] != NULL { OtherTick(s, s.path[0]); }
      var s1 := Scan(s);
      if |s.path| > 1 {
        assert End(s1) == End(s);
        forall i | 0 <= i < |s1.path| - 1 ensures Timer(s1, s1.path[i]) && !Armed(s1, s1.path[i]) {
          assert s1.path[i] == s.path[i + 1];
        }
      } else if s.path[0] != NULL {
        var l := s.lists[Slot(s.due[s.path[0]])];
        assert ListOk(s, Slot(s.due[s.path[0]]));
        NextOnList(s, s.path[0]);
        FromNext(l, s.path[0]);
      }
      if s1.scanning {
        assert InSlots(s1) by { forall p | 0 <= p < SLOTS ensures ListOk(s1, p) { assert ListOk(s, p); } }
        OffTheSlot(s1, k - 1);
      }
    }
  }

  /** When a timer that the scan follows is armed for another slot, every other timer that is
      still to fire in this tick is passed over: the scan ends, and it is armed for a tick that
      is over. */
  lemma LosesTimers(s: State, t: int, n: int, k: nat, u: int)
    requires Inv(s) && Timer(s, t) && t in s.path && 0 <= n < WORD && n % SLOTS != 0
    requires Timer(s, u) && u != t && Armed(s, u) && s.due[u] == s.now
    ensures var s' := Scans(Arm(s, t, n), k);
            && |s'.due| == |s.due| && Armed(s', u) && s'.due[u] == s'.now
            && (k >= Turns(Arm(s, t, n)) ==> !s'.scanning)
    ensures !CanArm(s, t, n)
  {
    hide From, Without, Scans, DueLeft, Arm, PathOk, ListOk, Turns;
    DueLeftIff(s, t);
    FollowedScans(s, t);
    ArmInSlots(s, t, n);
    ArmEnd(s, t, n);
    ArmOthers(s, t, n, u);
    OffTheSlot(Arm(s, t, n), k);
  }

  // A lost timer is not lost for ever: in 32 bits its tick comes round again.

  /** The same with timer `t` one round of the tick counter later. */
  function Late(s: State, t: int): (s': State)
    requires Shape(s) && Timer(s, t)
    ensures Shape(s') && |s'.due| == |s.due|
  {
    s.(due := s.due[t := s.due[t] + WORD])
  }

  lemma RoundTrip(x: int)
    ensures Slot(x + WORD) == Slot(x) && (x + WORD) % WORD == x % WORD
  {
    hide Slot;
    SlotMultiple(x, 0x800_0000);
    WordMultiple(x);
  }

  lemma LateDisarm(s: State, u: int, t: int)
    requires Shape(s) && Timer(s, t) && Timer(s, u)
    ensures Disarm(Late(s, t), u) == Late(Disarm(s, u), t)
  {
    hide Without, Next, Slot;
    RoundTrip(s.due[t]);
  }

  lemma LatePut(s: State, u: int, d: int, t: int)
    requires Shape(s) && Timer(s, t) && Timer(s, u) && u != t
    ensures PutIn(Late(s, t), u, d) == Late(PutIn(s, u, d), t)
  {
    hide Upto, Slot;
    assert s.due[t := s.due[t] + WORD][u := d] == s.due[u := d][t := s.due[t] + WORD];
  }

  lemma LateScan(s: State, t: int)
    requires PathOk(s) && Timer(s, t) && s.scanning
    ensures Scan(Late(s, t)) == Late(Scan(s), t) && Fires(Late(s, t)) == Fires(s)
  {
    hide Without, Next, Slot, Disarm;
    RoundTrip(s.due[t]);
    if s.path[0] != NULL {
      ScanIs(s);
      assert Passed(Late(s, t)) == Late(Passed(s), t);
      LateDisarm(Passed(s), s.path[0], t);
    }
  }

  /** No step can tell the difference. */
  lemma LateStep(s: State, a: Action, t: int)
    requires Placed(s) && Timer(s, t) && Allowed(s, a) && !Touches(a, t)
    ensures Allowed(Late(s, t), a) && Step(Late(s, t), a) == Late(Step(s, a), t)
    ensures Fires(Late(s, t)) == Fires(s) && Late(s, t).path == s.path && Late(s, t).now == s.now
  {
    hide Without, Next, Upto, From, ListOk, PathOk, Slot, Disarm, PutIn, Scan;
    RoundTrip(s.due[t]);
    match a
    case DoArm(u, n) =>
      LateDisarm(s, u, t);
      DisarmNow(s, u);
      LatePut(Disarm(s, u), u, s.now + n, t);
    case DoCancel(u) => LateDisarm(s, u, t);
    case DoTick =>
    case DoScan => LateScan(s, t);
  }

  lemma LatePlaced(s: State, t: int)
    requires Placed(s) && Timer(s, t)
    ensures Placed(Late(s, t)) && (Armed(Late(s, t), t) <==> Armed(s, t))
  {
    RoundTrip(s.due[t]);
    forall q | 0 <= q < SLOTS ensures ListOk(Late(s, t), q) {
      assert ListOk(s, q);
    }
  }

  /** A timer whose tick is over behaves like one that is due a round of the counter later. */
  lemma {:induction false} LostIsLate(s: State, run: seq<Action>, t: int)
    requires Placed(s) && Timer(s, t) && s.due[t] < s.now && Runs(Late(s, t), run, t)
    ensures Runs(s, run, t) && Firings(s, run, t) == Firings(Late(s, t), run, t)
    ensures Last(Late(s, t), run, t) == Late(Last(s, run, t), t)
    decreases |run|
  {
    hide ListOk, PathOk, Late, Step, Fires;
    if run != [] {
      LateAllows(s, run[0], t);
      LateStep(s, run[0], t);
      StepPlaces(s, run[0]);
      StepOfOthers(s, run[0], t);
      LostIsLate(Step(s, run[0]), run[1..], t);
    }
  }

  lemma LateAllows(s: State, a: Action, t: int)
    requires Shape(s) && Timer(s, t) && Allowed(Late(s, t), a)
    ensures Allowed(s, a)
  {
    RoundTrip(s.due[t]);
  }

  /** A lost timer fires once, exactly one round of the tick counter too late. */
  lemma LostTimerFires(s: State, run: seq<Action>, t: int)
    requires Placed(s) && Timer(s, t) && Armed(s, t) && s.due[t] < s.now < s.due[t] + WORD
    requires Runs(Late(s, t), run, t)
    ensures Runs(s, run, t)
    ensures var s' := Last(s, run, t);
            Firings(s, run, t) == if Armed(s', t) then [] else [s.due[t] + WORD]
    ensures Last(s, run, t).now > s.due[t] + WORD ==> !Armed(Last(s, run, t), t)
  {
    LatePlaced(s, t);
    LostIsLate(s, run, t);
    FiresOnce(Late(s, t), run, t);
    StaysPlaced(s, run, t);
    LatePlaced(Last(s, run, t), t);
  }

  lemma {:induction false} StaysPlaced(s: State, run: seq<Action>, t: int)
    requires Placed(s) && Timer(s, t) && Runs(s, run, t)
    ensures Placed(Last(s, run, t))
    decreases |run|
  {
    hide ListOk, PathOk, Step;
    if run != [] {
      StepPlaces(s, run[0]);
      StaysPlaced(Step(s, run[0]), run[1..], t);
    }
  }

  /** When the timer that the scan comes to is of this tick and is cancelled, the scan comes to
      it all the same. */
  lemma CancelBreaks(s: State, t: int)
    requires Inv(s) && Timer(s, t) && t == End(s) && s.due[t] == s.now
    ensures Broken(Scans(Disarm(s, t), |s.path| - 1)) && Scans(Disarm(s, t), |s.path| - 1).path[0] == t
    ensures !CanCancel(s, t)
  {
    hide From, Without, Next, ListOk, DueOk;
    FollowedScans(s, t);
    FollowsPath(Disarm(s, t), |s.path| - 1);
  }

  lemma {:induction false} FollowsPath(s: State, k: nat)
    requires Shape(s) && s.scanning && k < |s.path|
    ensures Scans(s, k) == s.(path := s.path[k..])
    decreases k
  {
    if k > 0 {
      assert Scan(s).path[k - 1..] == s.path[k..];
      FollowsPath(Scan(s), k - 1);
    } else {
      assert s.path[0..] == s.path;
    }
  }

  /** Three timers in one slot: 2 and 1 are due in this tick, 0 one turn of the wheel later. */
  const Crowded: State := State(1, [33, 1, 1], seq(SLOTS, q => if q == 1 then [2, 0, 1] else []), true, [2])

  lemma CrowdedKeeps()
    ensures Inv(Crowded) && Crowded.lists[1] == [2, 0, 1]
    ensures Without([2, 0, 1], 2) == [0, 1] && Next([2, 0, 1], 2) == 0 && Without([0, 1], 0) == [1]
    ensures Next([0, 1], 0) == 1
  {
    var l := [2, 0, 1];
    assert l[1..] == [0, 1] && l[1..][1..] == [1] && l[1..][1..][1..] == [];
    assert From(l, 2) == l && From([0, 1], 0) == [0, 1];
    forall q | 0 <= q < SLOTS ensures ListOk(Crowded, q) {
    }
    forall t | 0 <= t < 3 ensures DueOk(Crowded, t) {
    }
  }

  /** The function of timer 2 arms timer 0 anew, and timer 1 does not fire. */
  lemma FunctionLosesTimer()
    ensures Fires(Crowded) && Inv(Crowded)
    ensures var s' := Scans(Arm(Scan(Crowded), 0, 1), 2); !s'.scanning && Armed(s', 1) && s'.due[1] == s'.now
  {
    hide Without, From, Next, Scans;
    CrowdedKeeps();
    var s := Scan(Crowded);
    ScanKeeps(Crowded);
    assert s.path == [0] && s.lists[1] == [0, 1];
    LosesTimers(s, 0, 1, 2, 1);
    var s1 := Arm(s, 0, 1);
    assert s1.path == [0] && s1.lists[2] == [0];
    JustOne(0);
  }

  /** It cancels timer 0, then timer 1: the first is passed over, at the second the scan
      breaks. */
  lemma FunctionBreaksScan()
    ensures var s1 := Disarm(Scan(Crowded), 0); Inv(s1) && Broken(Scans(Disarm(s1, 1), 1))
  {
    hide Without, From, Next, Scans;
    CrowdedKeeps();
    var s := Scan(Crowded);
    ScanKeeps(Crowded);
    assert s.path == [0] && s.lists[1] == [0, 1];
    CancelKeepsIff(s, 0);
    CancelBreaks(Disarm(s, 0), 1);
  }

  lemma JustOne(x: int)
    ensures From([x], x) == [x]
  {
  }
}
