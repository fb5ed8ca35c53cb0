/** Directed graphs. */
module WaitGraph {
  // Graphs are given by their edge sets: reachability, and how adding edges at one node can or
  // cannot close a cycle.

  type Graph = set<(nat, nat)>

  ghost predicate Path(E: Graph, p: seq<nat>, a: nat, b: nat) {
    && |p| >= 2 && p[0] == a && p[|p| - 1] == b
    && forall i {:trigger p[i]} :: 0 <= i < |p| - 1 ==> (p[i], p[i + 1]) in E
  }

  /** There is a walk of at least one edge from `a` to `b`. */
  ghost predicate Reach(E: Graph, a: nat, b: nat) {
    exists p :: Path(E, p, a, b)
  }

  ghost predicate Acyclic(E: Graph) {
    forall a :: !Reach(E, a, a)
  }

  lemma EdgeReaches(E: Graph, a: nat, b: nat)
    requires (a, b) in E
    ensures Reach(E, a, b)
  {
    assert Path(E, [a, b], a, b);
  }

  lemma ReachTrans(E: Graph, a: nat, b: nat, c: nat)
    requires Reach(E, a, b) && Reach(E, b, c)
    ensures Reach(E, a, c)
  {
    var p :| Path(E, p, a, b);
    var q :| Path(E, q, b, c);
    var r := p + q[1..];
    forall i | 0 <= i < |r| - 1 ensures (r[i], r[i + 1]) in E {
      if i < |p| - 1 {
        assert r[i] == p[i] && r[i + 1] == p[i + 1];
      } else {
        assert r[i] == q[i - (|p| - 1)] && r[i + 1] == q[i - (|p| - 1) + 1];
      }
    }
    assert Path(E, r, a, c);
  }

  /** A walk starts with one edge and goes on from there. */
  lemma ReachStep(E: Graph, a: nat, b: nat)
    ensures Reach(E, a, b) <==> exists c {:trigger (a, c) in E} :: (a, c) in E && (c == b || Reach(E, c, b))
  {
    if Reach(E, a, b) {
      var p :| Path(E, p, a, b);
      var c := p[1];
      assert (p[0], p[1]) in E;
      if |p| > 2 {
        var q := p[1..];
        forall i | 0 <= i < |q| - 1 ensures (q[i], q[i + 1]) in E {
          assert q[i] == p[i + 1] && q[i + 1] == p[i + 2];
        }
        assert Path(E, q, c, b);
      }
      assert (a, c) in E;
    }
    forall c | (a, c) in E && (c == b || Reach(E, c, b)) ensures Reach(E, a, b) {
      EdgeReaches(E, a, c);
      if c != b { ReachTrans(E, a, c, b); }
    }
  }

  lemma ReachGrows(E: Graph, F: Graph, a: nat, b: nat)
    requires E <= F && Reach(E, a, b)
    ensures Reach(F, a, b)
  {
    var p :| Path(E, p, a, b);
    assert Path(F, p, a, b);
  }

  lemma FewerEdgesStayAcyclic(E: Graph, F: Graph)
    requires E <= F && Acyclic(F)
    ensures Acyclic(E)
  {
    forall a ensures !Reach(E, a, a) {
      if Reach(E, a, a) { ReachGrows(E, F, a, a); }
    }
  }

  /** The edges that do not leave `x`. */
  function Without(E: Graph, x: nat): Graph {
    set e | e in E && e.0 != x
  }

  /** A walk in `E` either never leaves `x`, or `x` can be reached from its start
      (or is it). */
  lemma {:induction false} WalkAvoidsOrMeets(E: Graph, x: nat, p: seq<nat>, a: nat, b: nat)
    requires Path(E, p, a, b)
    ensures Reach(Without(E, x), a, b) || a == x || Reach(E, a, x)
    decreases |p|
  {
    assert (p[0], p[1]) in E;
    if a != x {
      EdgeReaches(Without(E, x), a, p[1]);
      EdgeReaches(E, a, p[1]);
      if |p| > 2 {
        var q := p[1..];
        forall i | 0 <= i < |q| - 1 ensures (q[i], q[i + 1]) in E {
          assert q[i] == p[i + 1] && q[i + 1] == p[i + 2];
        }
        WalkAvoidsOrMeets(E, x, q, p[1], b);
        if Reach(Without(E, x), p[1], b) {
          ReachTrans(Without(E, x), a, p[1], b);
        } else if Reach(E, p[1], x) {
          ReachTrans(E, a, p[1], x);
        }
      }
    }
  }

  /** Edges out of `x` close a cycle exactly when one of its successors reaches `x`. */
  lemma CycleIffReachesBack(E: Graph, x: nat)
    requires Acyclic(Without(E, x))
    ensures Acyclic(E) <==> !Reach(E, x, x)
  {
    if !Acyclic(E) {
      var a :| Reach(E, a, a);
      var p :| Path(E, p, a, a);
      WalkAvoidsOrMeets(E, x, p, a, a);
      if a != x {
        assert Reach(E, a, x);
        BackFrom(E, x, p, a, a);
      }
    }
  }

  /** On a closed walk that meets `x`, `x` reaches the end of the walk. */
  lemma {:induction false} BackFrom(E: Graph, x: nat, p: seq<nat>, a: nat, b: nat)
    requires Acyclic(Without(E, x))
    requires Path(E, p, a, b) && a != x && b != x && Reach(E, b, x)
    ensures Reach(Without(E, x), a, b) || Reach(E, x, x)
    decreases |p|
  {
    assert (p[0], p[1]) in E;
    if |p| == 2 {
      EdgeReaches(Without(E, x), a, b);
    } else {
      var q := p[1..];
      forall i | 0 <= i < |q| - 1 ensures (q[i], q[i + 1]) in E {
        assert q[i] == p[i + 1] && q[i + 1] == p[i + 2];
      }
      assert Path(E, q, p[1], b);
      if p[1] == x {
        ReachTrans(E, x, b, x);
      } else {
        BackFrom(E, x, q, p[1], b);
        if Reach(Without(E, x), p[1], b) {
          EdgeReaches(Without(E, x), a, p[1]);
          ReachTrans(Without(E, x), a, p[1], b);
        }
      }
    }
  }

  /** New edges into a node without successors close no cycle. */
  lemma EdgesIntoSinkStayAcyclic(E: Graph, F: Graph, x: nat)
    requires Acyclic(E)
    requires forall e :: e in F ==> e in E || e.1 == x
    requires forall e :: e in F ==> e.0 != x
    ensures Acyclic(F)
  {
    forall a ensures !Reach(F, a, a) {
      assert !Reach(E, a, a);
      if Reach(F, a, a) {
        var p :| Path(F, p, a, a);
        forall i | 0 <= i < |p| - 1 ensures (p[i], p[i + 1]) in E {
          assert (p[i], p[i + 1]) in F;
          if i < |p| - 2 {
            assert (p[i + 1], p[i + 2]) in F;
          } else {
            assert (p[0], p[1]) in F;
          }
        }
        assert Path(E, p, a, a);
      }
    }
  }
}
