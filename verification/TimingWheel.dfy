/** The timers of the wheel in place.

    Nodes linked into the lists of 32 slots, with ticks kept in 32 bits.  A slot is a node
    that has only a link forward, as in the source, where a list head may stand for the
    node before the first. */
module TimingWheel {
  import Chains
  import opened WheelSpec

  /** The node before position `i` of list `l`. */
  function Prev(head: int, l: seq<int>, i: int): int
    requires 0 <= i <= |l|
  {
    if i == 0 then head else l[i - 1]
  }

  /** `n` timers; the nodes from `n` on are slots. */
  ghost predicate LinkAt(next: seq<int>, last: seq<int>, head: int, l: seq<int>, i: int)
    requires 0 <= i <= |l|
  {
    && 0 <= Prev(head, l, i) < |next|
    && next[Prev(head, l, i)] == (if i < |l| then l[i] else NULL)
    && (i < |l| ==> 0 <= l[i] < |last| && last[l[i]] == Prev(head, l, i))
  }

  ghost predicate ChainAt(next: seq<int>, last: seq<int>, head: int, l: seq<int>) {
    |last| <= head < |next| && Chains.Distinct(l) && forall i :: 0 <= i <= |l| ==> LinkAt(next, last, head, l, i)
  }

  /** Nodes of other lists can change. */
  lemma ChainFrame(next: seq<int>, last: seq<int>, next': seq<int>, last': seq<int>, head: int, l: seq<int>)
    requires ChainAt(next, last, head, l) && |next'| == |next| && |last'| == |last|
    requires next'[head] == next[head]
    requires forall x :: 0 <= x < |last| && x in l ==> x < |next| && next'[x] == next[x] && last'[x] == last[x]
    ensures ChainAt(next', last', head, l)
  {
    forall i | 0 <= i <= |l| ensures LinkAt(next', last', head, l, i) {
      assert LinkAt(next, last, head, l, i);
      if i > 0 { assert LinkAt(next, last, head, l, i - 1) && l[i - 1] in l; }
      if i < |l| { assert l[i] in l; }
    }
  }

  lemma ChainNodes(next: seq<int>, last: seq<int>, head: int, l: seq<int>)
    requires ChainAt(next, last, head, l)
    ensures forall i :: 0 <= i < |l| ==> 0 <= l[i] < |last| < |next|
  {
    forall i | 0 <= i < |l| ensures 0 <= l[i] < |last| < |next| { assert LinkAt(next, last, head, l, i); }
  }

  lemma {:induction false} WithoutAt(l: seq<int>, k: int)
    requires Chains.Distinct(l) && 0 <= k < |l|
    ensures Without(l, l[k]) == l[..k] + l[k + 1..]
  {
    if k == 0 {
      assert l[0] !in l[1..];
      WithoutAbsent(l[1..], l[0]);
    } else {
      WithoutAt(l[1..], k - 1);
      assert l[1..][..k - 1] == l[1..k] && l[..k] == [l[0]] + l[1..k];
    }
  }

  /** The links after node `l[k]` is taken out. */
  lemma ChainWithout(next: seq<int>, last: seq<int>, head: int, l: seq<int>, k: int, next': seq<int>, last': seq<int>)
    requires ChainAt(next, last, head, l) && 0 <= k < |l| && |next'| == |next| && |last'| == |last|
    requires 0 <= l[k] < |last| && 0 <= last[l[k]] < |next|
    requires next' == next[last[l[k]] := next[l[k]]]
    requires forall x :: 0 <= x < |last| && x != l[k] ==> last'[x] == if x == next[l[k]] then last[l[k]] else last[x]
    ensures ChainAt(next', last', head, l[..k] + l[k + 1..])
  {
    var t, m := l[k], l[..k] + l[k + 1..];
    ChainNodes(next, last, head, l);
    assert LinkAt(next, last, head, l, k) && LinkAt(next, last, head, l, k + 1);
    forall i | 0 <= i <= |m| ensures LinkAt(next', last', head, m, i) {
      var j := if i <= k then i else i + 1;
      assert LinkAt(next, last, head, l, j);
      if i < k { assert last'[l[i]] == last[l[i]]; }
      if i == k < |m| { assert m[i] == l[k + 1] == next[t]; }
      if k < i < |m| { assert m[i] == l[i + 1]; }
    }
  }

  /** The links after a node is put at the head. */
  lemma ChainPush(next: seq<int>, last: seq<int>, head: int, l: seq<int>, t: int, next': seq<int>, last': seq<int>)
    requires ChainAt(next, last, head, l) && t !in l && 0 <= t < |last| && |next'| == |next| && |last'| == |last|
    requires next' == next[t := next[head]][head := t]
    requires forall x :: 0 <= x < |last| ==> last'[x] == if x == t then head else if x == next[head] then t else last[x]
    ensures ChainAt(next', last', head, [t] + l)
  {
    var m := [t] + l;
    ChainNodes(next, last, head, l);
    assert LinkAt(next, last, head, l, 0);
    forall i | 0 <= i <= |m| ensures LinkAt(next', last', head, m, i) {
      if i > 0 {
        assert LinkAt(next, last, head, l, i - 1);
        assert i < |m| ==> m[i] == l[i - 1] && m[i] in l;
        if 1 < i { assert m[i - 1] == l[i - 2] && m[i - 1] in l; }
      }
    }
  }

  /** The links that timers on the path were left with lead along it. */
  ghost predicate Followed(next: seq<int>, s: State) {
    forall i :: 0 <= i < |s.path| - 1 ==> LinkOn(next, s.path, i)
  }

  ghost predicate LinkOn(next: seq<int>, path: seq<int>, i: int)
    requires 0 <= i < |path| - 1
  {
    0 <= path[i] < |next| && next[path[i]] == path[i + 1]
  }

  /** A timer that is taken off leaves its link behind. */
  lemma FollowedDetach(N: seq<int>, s: State, t: int, qp: int)
    requires Followed(N, s) && InSlots(s) && PathOk(s) && Timer(s, t) && Armed(s, t) && 0 <= t < |N| && 0 <= qp < |N|
    requires N[t] == Next(s.lists[Slot(s.due[t])], t) && qp != t
    requires qp >= |s.due| || Armed(s, qp)
    ensures Followed(N[qp := N[t]], Disarm(s, t))
  {
    hide Without, Next, ListOk;
    var s', N' := Disarm(s, t), N[qp := N[t]];
    forall i | 0 <= i < |s'.path| - 1 ensures LinkOn(N', s'.path, i) {
      if i < |s.path| - 1 { assert LinkOn(N, s.path, i); }
    }
  }

  /** A timer that is put on a list ends the path. */
  lemma FollowedAttach(N: seq<int>, s: State, t: int, d: int, h: int)
    requires Followed(N, s) && PathOk(s) && Timer(s, t) && |s.due| <= h < |N|
    ensures Followed(N[t := N[h]][h := t], PutIn(s, t, d))
  {
    hide Upto;
    UptoIs(s.path, t);
    var s', N' := PutIn(s, t, d), N[t := N[h]][h := t];
    forall i | 0 <= i < |s'.path| - 1 ensures LinkOn(N', s'.path, i) {
      assert LinkOn(N, s.path, i) && s'.path[i] != t;
    }
  }

  lemma NotOnList(s: State, t: int)
    requires Shape(s) && Timer(s, t) && !Armed(s, t)
    ensures Disarm(s, t) == s
  {
    var q := Slot(s.due[t]);
    WithoutAbsent(s.lists[q], t);
    assert s.lists[q := s.lists[q]] == s.lists;
  }

  /** 32-bit ticks: slots and equality can be read off them. */
  lemma TickBits(now: int, due: int)
    requires 0 <= now && 0 <= due
    ensures due % WORD % SLOTS == Slot(due)
    ensures now <= due < now + WORD ==> (due % WORD == now % WORD <==> due == now)
    ensures (now % WORD + 1) % WORD == (now + 1) % WORD
  {
  }

  lemma TickSum(now: int, n: int)
    requires 0 <= now && 0 <= n < WORD
    ensures (now % WORD + n) % WORD == (now + n) % WORD
  {
  }

  lemma {:induction false} FromAt(l: seq<int>, k: int)
    requires Chains.Distinct(l) && 0 <= k < |l|
    ensures From(l, l[k]) == l[k..]
  {
    if k > 0 { FromAt(l[1..], k - 1); }
  }

  class Timers {
    const n: int                     // how many timers there are
    const next: array<int>           // t_next, then the heads in timq
    const last: array<int>           // t_last
    const tlbolt: array<int>         // t_lbolt
    var lbolt: int
    var scanning: bool
    var np: int
    ghost var st: State

    ghost predicate Valid()
      reads this, next, last, tlbolt
    {
      Inv(st) && Shown()
    }

    /** The fields are those of state `st`, whether it has the invariant or not. */
    ghost predicate Shown()
      reads this, next, last, tlbolt
    {
      Linked(st) && lbolt == st.now % WORD && scanning == st.scanning && np == st.path[0]
    }

    /** The links and ticks of the nodes are those of state `s`. */
    ghost predicate Linked(s: State)
      reads next, last, tlbolt
    {
      && 0 <= n && next.Length == n + SLOTS && last.Length == n == tlbolt.Length == |s.due|
      && next != last && next != tlbolt && last != tlbolt && InSlots(s)
      && (forall q :: 0 <= q < SLOTS ==> ChainAt(next[..], last[..], n + q, s.lists[q]))
      && (forall t :: 0 <= t < n ==> tlbolt[t] == s.due[t] % WORD)
      && (forall t :: 0 <= t < n ==> (last[t] == NULL <==> !Armed(s, t)))
      && PathOk(s) && Followed(next[..], s)
    }

    constructor (timers: nat)
      ensures Valid() && n == timers && !scanning && forall t :: 0 <= t < n ==> !Armed(st, t)
    {
      n, lbolt, scanning, np := timers, 0, false, NULL;
      next := new int[timers + SLOTS](_ => NULL);
      last := new int[timers](_ => NULL);
      tlbolt := new int[timers](_ => 0);
      st := State(0, seq(timers, _ => 0), seq(SLOTS, _ => []), false, [NULL]);
      new;
      forall q | 0 <= q < SLOTS ensures ChainAt(next[..], last[..], n + q, st.lists[q]) {
        assert LinkAt(next[..], last[..], n + q, [], 0);
      }
    }

    /** Takes a timer off the list that it is on. */
    method Detach(t: int, ghost s: State)
      requires Linked(s) && 0 <= t < n && Armed(s, t)
      modifies next, last
      ensures Linked(Disarm(s, t))
    {
      hide From, Without, Next, ChainAt, Chains.Distinct, Followed, PathOk, ListOk, Upto;
      ghost var N, L, p, l := next[..], last[..], Slot(s.due[t]), s.lists[Slot(s.due[t])];
      ghost var k := Position(s, N, L, t);
      var qp := last[t];
      last[t] := NULL;
      next[qp] := next[t];
      if next[t] != NULL {
        last[next[t]] := qp;
      }
      assert next[..] == N[qp := N[t]];
      Detached(s, N, L, t, k, next[..], last[..]);
      NextIs(s, N, L, t);
      FollowedDetach(N, s, t, qp);
      DisarmPath(s, t);
    }

    /** What the links say about a timer on a list. */
    ghost method Position(s: State, N: seq<int>, L: seq<int>, t: int) returns (k: int)
      requires Linked(s) && 0 <= t < n && Armed(s, t) && N == next[..] && L == last[..]
      ensures var l := s.lists[Slot(s.due[t])];
              0 <= k < |l| && l[k] == t && 0 <= L[t] < |N|
                  && (N[t] == NULL || (0 <= N[t] < n && N[t] != t && N[t] in l))
      ensures var l := s.lists[Slot(s.due[t])];
                L[t] == Prev(n + Slot(s.due[t]), l, k) && N[t] == if k + 1 < |l| then l[k + 1] else NULL
    {
      hide From, Without;
      var q := Slot(s.due[t]);
      var l := s.lists[q];
      k :| 0 <= k < |l| && l[k] == t;
      assert ChainAt(N, L, n + q, l);
      assert LinkAt(N, L, n + q, l, k) && LinkAt(N, L, n + q, l, k + 1);
      ChainNodes(N, L, n + q, l);
    }

    lemma Detached(s: State, N: seq<int>, L: seq<int>, t: int, k: int, N': seq<int>, L': seq<int>)
      requires 0 <= n && |N| == n + SLOTS && |L| == n == |s.due| && InSlots(s) && 0 <= t < n && Armed(s, t)
      requires forall q :: 0 <= q < SLOTS ==> ChainAt(N, L, n + q, s.lists[q])
      requires var l := s.lists[Slot(s.due[t])];
               0 <= k < |l| && l[k] == t && 0 <= L[t] < |N|
                   && (N[t] == NULL || (0 <= N[t] < n && N[t] != t && N[t] in l))
      requires L[t] == Prev(n + Slot(s.due[t]), s.lists[Slot(s.due[t])], k)
      requires |N'| == |N| && |L'| == |L| && N' == N[L[t] := N[t]]
      requires forall x :: 0 <= x < n ==> L'[x] == if x == t then NULL else if x == N[t] then L[t] else L[x]
      requires forall x :: 0 <= x < n ==> (L[x] == NULL <==> !Armed(s, x))
      ensures InSlots(Disarm(s, t)) && forall q :: 0 <= q < SLOTS ==> ChainAt(N', L', n + q, Disarm(s, t).lists[q])
      ensures forall x :: 0 <= x < n ==> (L'[x] == NULL <==> !Armed(Disarm(s, t), x))
    {
      hide From, Without;
      var p, l, s' := Slot(s.due[t]), s.lists[Slot(s.due[t])], Disarm(s, t);
      assert ListOk(s, p) && ChainAt(N, L, n + p, l);
      WithoutAt(l, k);
      WithoutDistinct(l, t);
      ChainWithout(N, L, n + p, l, k, N', L');
      forall q | 0 <= q < SLOTS ensures ListOk(s', q) && ChainAt(N', L', n + q, s'.lists[q]) {
        assert ListOk(s, q);
        if q != p {
          assert ChainAt(N, L, n + q, s.lists[q]);
          assert forall x :: x in s.lists[q] ==> x !in l;
          assert k > 0 ==> L[t] in l;
          ChainFrame(N, L, N', L', n + q, s.lists[q]);
        }
      }
    }

    /** The link of a timer on a list, and what it hangs on. */
    lemma NextIs(s: State, N: seq<int>, L: seq<int>, t: int)
      requires 0 <= n && |N| == n + SLOTS && |L| == n == |s.due| && InSlots(s) && 0 <= t < n && Armed(s, t)
      requires ChainAt(N, L, n + Slot(s.due[t]), s.lists[Slot(s.due[t])])
      ensures N[t] == Next(s.lists[Slot(s.due[t])], t)
      ensures 0 <= L[t] < |N| && L[t] != t && (L[t] >= n || (Timer(s, L[t]) && Armed(s, L[t])))
    {
      hide Without;
      var q := Slot(s.due[t]);
      var l := s.lists[q];
      var k :| 0 <= k < |l| && l[k] == t;
      assert ListOk(s, q);
      assert LinkAt(N, L, n + q, l, k) && LinkAt(N, L, n + q, l, k + 1);
      FromAt(l, k);
      if k > 0 { assert l[k - 1] in l; }
    }

    /** Takes a timer off its list, if it is on one. */
    method Unlink(t: int)
      requires Linked(st) && 0 <= t < n
      modifies next, last, this`st
      ensures Linked(st) && st == Disarm(old(st), t) && !Armed(st, t)
    {
      hide Without, From, Linked, ListOk;
      LastSays(t);
      DisarmInSlots(st, t);
      if last[t] != NULL {
        Detach(t, st);
      } else {
        NotOnList(st, t);
      }
      st := Disarm(st, t);
    }

    lemma LastSays(t: int)
      requires Linked(st) && 0 <= t < n
      ensures n == |st.due| == last.Length == tlbolt.Length && next.Length == n + SLOTS && Shape(st)
      ensures (last[t] == NULL <==> !Armed(st, t)) && tlbolt[t] == st.due[t] % WORD && InSlots(st)
    {
    }

    /** Sets the tick of a timer that is on no list, and puts it at the head of its slot. */
    method Attach(t: int, tick: int, ghost due: int)
      requires Linked(st) && 0 <= t < n && !Armed(st, t) && 0 <= due && tick == due % WORD
      modifies next, last, tlbolt
      ensures Linked(PutIn(st, t, due))
    {
      hide From, Without, Next, ChainAt, Chains.Distinct, Followed, PathOk, ListOk, Upto;
      ghost var s, N, L := st, next[..], last[..];
      TickBits(0, due);
      var q := tick % SLOTS;
      HeadLink(s, N, L, q);
      tlbolt[t] := tick;
      next[t] := next[n + q];
      if next[t] != NULL {
        last[next[t]] := t;
      }
      last[t] := n + q;
      next[n + q] := t;
      assert next[..] == N[t := N[n + q]][n + q := t];
      Attached(s, N, L, t, due, next[..], last[..]);
      FollowedAttach(N, s, t, due, n + q);
      PutPath(s, t, due);
    }

    lemma HeadLink(s: State, N: seq<int>, L: seq<int>, q: int)
      requires Linked(s) && N == next[..] && L == last[..] && 0 <= q < SLOTS
      ensures N[n + q] == NULL || (0 <= N[n + q] < n && N[n + q] in s.lists[q])
    {
      assert ChainAt(N, L, n + q, s.lists[q]);
      assert LinkAt(N, L, n + q, s.lists[q], 0);
    }

    lemma Attached(s: State, N: seq<int>, L: seq<int>, t: int, due: int, N': seq<int>, L': seq<int>)
      requires 0 <= n && |N| == n + SLOTS && |L| == n == |s.due| && InSlots(s) && 0 <= t < n && !Armed(s, t)
      requires forall q :: 0 <= q < SLOTS ==> ChainAt(N, L, n + q, s.lists[q])
      requires |N'| == |N| && |L'| == |L| && N' == N[t := N[n + Slot(due)]][n + Slot(due) := t]
      requires forall x :: 0 <= x < n ==>
                 L'[x] == if x == t then n + Slot(due) else if x == N[n + Slot(due)] then t else L[x]
      requires N[n + Slot(due)] == NULL || (0 <= N[n + Slot(due)] < n && N[n + Slot(due)] in s.lists[Slot(due)])
      requires forall x :: 0 <= x < n ==> (L[x] == NULL <==> !Armed(s, x))
      ensures var s' := PutIn(s, t, due);
              && InSlots(s') && (forall q :: 0 <= q < SLOTS ==> ChainAt(N', L', n + q, s'.lists[q]))
              && forall x :: 0 <= x < n ==> (L'[x] == NULL <==> !Armed(s', x))
    {
      hide From, Without;
      var p := Slot(due);
      var s' := PutIn(s, t, due);
      NowhereElse(s, t, p);
      assert ListOk(s, p) && ChainAt(N, L, n + p, s.lists[p]);
      ChainPush(N, L, n + p, s.lists[p], t, N', L');
      forall q | 0 <= q < SLOTS ensures ListOk(s', q) && ChainAt(N', L', n + q, s'.lists[q]) {
        assert ListOk(s, q);
        NowhereElse(s, t, q);
        if q != p {
          assert ChainAt(N, L, n + q, s.lists[q]);
          assert forall x :: x in s.lists[q] ==> x !in s.lists[p];
          ChainFrame(N, L, N', L', n + q, s.lists[q]);
        }
      }
    }

    /** timeout: arms timer `t` to go off after `ticks` ticks, or cancels it when there is
        no function to call. */
    method Timeout(t: int, ticks: int, f: bool)
      requires Shown() && 0 <= t < n && 0 <= ticks < WORD
      modifies this`st, next, last, tlbolt
      ensures Shown() && st == if f then Arm(old(st), t, ticks) else Disarm(old(st), t)
      ensures old(Valid()) ==> (Valid() <==> if f then CanArm(old(st), t, ticks) else CanCancel(old(st), t))
    {
      hide Without, From, Next, Linked, ListOk, CanArm, CanCancel;
      ghost var s := st;
      LastSays(t);
      SameFront(s, t, s.now + ticks);
      Unlink(t);
      if !f {
        if Inv(s) { CancelKeepsIff(s, t); }
        return;
      }
      TickSum(s.now, ticks);
      Attach(t, (lbolt + ticks) % WORD, s.now + ticks);
      st := Arm(s, t, ticks);
      if Inv(s) { ArmKeepsIff(s, t, ticks); }
    }

    lemma SameFront(s: State, t: int, d: int)
      requires Shape(s) && Timer(s, t)
      ensures Disarm(s, t).path[0] == s.path[0] && PutIn(Disarm(s, t), t, d).path[0] == s.path[0]
    {
    }

    /** timeout2: the same, but a delay of 0 only cancels. */
    method Timeout2(t: int, ticks: int, f: bool)
      requires Shown() && 0 <= t < n && 0 <= ticks < WORD
      modifies this`st, next, last, tlbolt
      ensures Shown() && st == if f && ticks != 0 then Arm(old(st), t, ticks) else Disarm(old(st), t)
      ensures old(Valid()) ==>
                (Valid() <==> if f && ticks != 0 then CanArm(old(st), t, ticks) else CanCancel(old(st), t))
    {
      Timeout(t, ticks, f && ticks != 0);
    }

    /** The beginning of a tick in check_clock. */
    method BeginTick()
      requires Shown() && !scanning
      modifies this`lbolt, this`scanning, this`np, this`st
      ensures Shown() && st == StartTick(old(st)) && (old(Valid()) ==> Valid())
    {
      hide Without, From, ChainAt, ListOk, DueOk;
      TickPlaces(st);
      if Inv(st) { TickKeeps(st); }
      TickBits(st.now, st.now + 1);
      ghost var l := st.lists[Slot(st.now + 1)];
      lbolt := (lbolt + 1) % WORD;
      FirstOf(st, lbolt % SLOTS);
      np := next[n + lbolt % SLOTS];
      scanning := true;
      SameLists(st, StartTick(st));
      st := StartTick(st);
    }

    lemma FirstOf(s: State, q: int)
      requires Linked(s) && 0 <= q < SLOTS
      ensures next[n + q] == if s.lists[q] == [] then NULL else s.lists[q][0]
    {
      assert ChainAt(next[..], last[..], n + q, s.lists[q]);
      assert LinkAt(next[..], last[..], n + q, s.lists[q], 0);
    }

    /** The links do not depend on the tick and on the state of the scan. */
    lemma SameLists(s: State, s': State)
      requires Linked(s) && Shape(s') && s'.due == s.due && s'.lists == s.lists
      requires PathOk(s') && Followed(next[..], s')
      ensures Linked(s')
    {
      forall q | 0 <= q < SLOTS ensures ListOk(s', q) { assert ListOk(s, q); }
    }

    lemma NextOf(s: State, t: int)
      requires Linked(s) && 0 <= t < n && Armed(s, t)
      ensures next[t] == Next(s.lists[Slot(s.due[t])], t)
    {
      hide Without;
      var q := Slot(s.due[t]);
      var l := s.lists[q];
      var k :| 0 <= k < |l| && l[k] == t;
      assert ChainAt(next[..], last[..], n + q, l);
      assert LinkAt(next[..], last[..], n + q, l, k + 1);
      FromAt(l, k);
    }

    /** One turn of the scan.  It returns the timer whose function is to be called now; the
        function may call Timeout before the next turn. */
    method ScanOne() returns (fired: int)
      requires Shown() && scanning && !Broken(st)
      modifies this`scanning, this`np, this`st, next, last
      ensures Shown() && st == Scan(old(st)) && (old(Valid()) ==> Valid())
      ensures fired == if Fires(old(st)) then old(np) else NULL
    {
      hide Without, From, Next, ChainAt, ListOk, DueOk;
      ghost var s := st;
      if Inv(s) { ScanKeeps(s); }
      ScanIs(s);
      fired := NULL;
      if np == NULL {
        scanning := false;
        SameLists(s, Scan(s));
        st := Scan(s);
        return;
      }
      var tp := np;
      if |s.path| == 1 { NextOf(s, tp); }
      PassedIs(next[..], s);
      LastSays(tp);
      np := next[tp];
      SameLists(s, Passed(s));
      if tlbolt[tp] == lbolt {
        Detach(tp, Passed(s));
        fired := tp;
      }
      st := Scan(s);
    }
  }

  lemma PassedIs(N: seq<int>, s: State)
    requires InSlots(s) && PathOk(s) && s.scanning && s.path[0] != NULL && Followed(N, s)
    requires Timer(s, s.path[0]) && s.path[0] < |N|
    requires |s.path| == 1 ==> N[s.path[0]] == Next(s.lists[Slot(s.due[s.path[0]])], s.path[0])
    ensures PathOk(Passed(s)) && Followed(N, Passed(s)) && N[s.path[0]] == Passed(s).path[0]
    ensures Scan(s) == if Fires(s) then Disarm(Passed(s), s.path[0]) else Passed(s)
  {
    hide Without, Next, ListOk;
    var s' := Passed(s);
    if |s.path| == 1 {
      NextOnList(s, s.path[0]);
    } else {
      assert LinkOn(N, s.path, 0) && End(s') == End(s);
    }
    forall i | 0 <= i < |s'.path| - 1
      ensures LinkOn(N, s'.path, i) && Timer(s', s'.path[i]) && !Armed(s', s'.path[i])
    {
      assert LinkOn(N, s.path, i + 1) && s'.path[i] == s.path[i + 1];
    }
  }
}
