/** Singly linked lists whose nodes are the indices of an array of links.

    A list is the sequence of its nodes.  Pushing, cutting out and changing links elsewhere
    are described by what they do to that sequence. */
module Chains {
  const NULL: int := -1

  /** `s` is the list that starts at `head`. */
  ghost predicate ListAt(link: seq<int>, head: int, s: seq<int>) {
    && head == (if s == [] then NULL else s[0])
    && forall i :: 0 <= i < |s| ==> LinkAt(link, s, i)
  }

  ghost predicate LinkAt(link: seq<int>, s: seq<int>, i: int)
    requires 0 <= i < |s|
  {
    0 <= s[i] < |link| && link[s[i]] == if i + 1 < |s| then s[i + 1] else NULL
  }

  /** No element occurs twice. */
  predicate Distinct(s: seq<int>) {
    forall i, j :: 0 <= i < j < |s| ==> s[i] != s[j]
  }

  /** Links of nodes off the list can change. */
  lemma ListApart(link: seq<int>, link': seq<int>, head: int, s: seq<int>)
    requires ListAt(link, head, s) && |link'| == |link| && forall x :: 0 <= x < |link| && x in s ==> link'[x] == link[x]
    ensures ListAt(link', head, s)
  {
    forall i | 0 <= i < |s| ensures LinkAt(link', s, i) {
      assert LinkAt(link, s, i) && s[i] in s;
    }
  }

  lemma ListElsewhere(link: seq<int>, head: int, s: seq<int>, x: int, v: int)
    requires ListAt(link, head, s) && 0 <= x < |link| && x !in s
    ensures ListAt(link[x := v], head, s)
  {
    ListApart(link, link[x := v], head, s);
  }

  /** A node is put in front of a list. */
  lemma ListPush(link: seq<int>, head: int, s: seq<int>, x: int)
    requires ListAt(link, head, s) && 0 <= x < |link| && x !in s
    ensures ListAt(link[x := head], x, [x] + s)
  {
    var link', t := link[x := head], [x] + s;
    ListElsewhere(link, head, s, x, head);
    forall i | 0 <= i < |t| ensures LinkAt(link', t, i) {
      if i > 0 { assert LinkAt(link', s, i - 1); }
    }
  }

  lemma ListRest(link: seq<int>, head: int, s: seq<int>)
    requires ListAt(link, head, s) && s != []
    ensures 0 <= head < |link| && head == s[0] && ListAt(link, link[head], s[1..])
  {
    var t := s[1..];
    assert LinkAt(link, s, 0);
    forall i | 0 <= i < |t| ensures LinkAt(link, t, i) {
      assert LinkAt(link, s, i + 1);
    }
  }

  predicate Nodes(s: seq<int>, n: int) {
    forall i :: 0 <= i < |s| ==> 0 <= s[i] < n
  }

  lemma ListNodes(link: seq<int>, head: int, s: seq<int>)
    requires ListAt(link, head, s)
    ensures Nodes(s, |link|)
  {
    forall i | 0 <= i < |s| ensures 0 <= s[i] < |link| { assert LinkAt(link, s, i); }
  }

  lemma NotEmpty(link: seq<int>, head: int, s: seq<int>)
    requires ListAt(link, head, s)
    ensures head == NULL <==> s == []
  {
    if s != [] { assert LinkAt(link, s, 0); }
  }

  lemma NoList(link: seq<int>)
    ensures ListAt(link, NULL, [])
  {
  }

  function Reverse(s: seq<int>): (r: seq<int>)
    ensures |r| == |s| && forall i :: 0 <= i < |s| ==> r[i] == s[|s| - 1 - i]
  {
    seq(|s|, i requires 0 <= i < |s| => s[|s| - 1 - i])
  }

  /** `s` without the element at position `k`. */
  function Cut(s: seq<int>, k: int): (r: seq<int>)
    requires 0 <= k < |s|
    ensures |r| == |s| - 1
    ensures forall i {:trigger r[i]} :: 0 <= i < |r| ==> r[i] == if i < k then s[i] else s[i + 1]
  {
    s[..k] + s[k + 1..]
  }

  /** The others stay, once each. */
  lemma CutKeeps(s: seq<int>, k: int)
    requires 0 <= k < |s|
    ensures forall x :: x in Cut(s, k) ==> x in s
    ensures Distinct(s) ==> Distinct(Cut(s, k)) && s[k] !in Cut(s, k)
  {
  }

  /** A node that is not the first is unlinked. */
  lemma ListCut(link: seq<int>, head: int, s: seq<int>, k: int)
    requires ListAt(link, head, s) && Distinct(s) && 0 < k < |s|
    ensures 0 <= s[k - 1] < |link| && 0 <= s[k] < |link| && ListAt(link[s[k - 1] := link[s[k]]], head, Cut(s, k))
  {
    assert LinkAt(link, s, k - 1) && LinkAt(link, s, k);
    var link', r := link[s[k - 1] := link[s[k]]], Cut(s, k);
    forall i | 0 <= i < |r| ensures LinkAt(link', r, i) {
      var j := if i < k then i else i + 1;
      assert LinkAt(link, s, j) && r[i] == s[j];
      if i + 1 < |r| { assert r[i + 1] == s[if i + 1 < k then i + 1 else i + 2]; }
      if j != k - 1 { assert s[j] != s[k - 1]; }
    }
  }

  /** A node is linked behind the last. */
  lemma ListAppend(link: seq<int>, head: int, s: seq<int>, x: int)
    requires ListAt(link, head, s) && s != [] && Distinct(s) && 0 <= x < |link| && x !in s
    ensures 0 <= s[|s| - 1] < |link| && ListAt(link[x := NULL][s[|s| - 1] := x], head, s + [x])
  {
    var last := s[|s| - 1];
    assert LinkAt(link, s, |s| - 1);
    var link', r := link[x := NULL][last := x], s + [x];
    forall i | 0 <= i < |r| ensures LinkAt(link', r, i) {
      if i < |s| {
        assert LinkAt(link, s, i) && r[i] == s[i] && s[i] in s;
        if i < |s| - 1 { assert s[i] != last && r[i + 1] == s[i + 1]; }
      }
    }
  }
}
