/**
  The trie has no node it does not need: its nodes are the prefixes of the paths
  it holds subscriptions under, and so it is small when few subscriptions live.
 */
module TrieSize {
  import opened Topics
  import opened Trie
  import opened TrieShape

  // ---- Nodes are prefixes of held paths ----

  lemma {:induction false} HeldReaches(n: Node, q: seq<Segment>)
    requires SubsAt(n, q) != map[]
    ensures Reaches(n, q)
    decreases q
  {
    if q != [] {
      HeldReaches(Kids(n)[Position(Kids(n), q[0])], q[1..]);
    }
  }

  lemma {:induction false} ReachesPrefix(n: Node, p: seq<Segment>, q: seq<Segment>)
    requires Reaches(n, q) && p <= q
    ensures Reaches(n, p)
    decreases p
  {
    if p != [] {
      ReachesPrefix(Kids(n)[Position(Kids(n), p[0])], p[1..], q[1..]);
    }
  }

  /** Below a live node some path holds a subscription. */
  lemma {:induction false} LiveHolds(n: Node) returns (q: seq<Segment>)
    requires WellFormed(n) && !IsDead(n)
    ensures SubsAt(n, q) != map[]
    decreases n
  {
    if n.subs != map[] {
      q := [];
    } else {
      var kid := Kids(n)[0];
      PositionIs(Kids(n), 0);
      var rest := LiveHolds(kid);
      q := [kid.level] + rest;
      assert q[1..] == rest;
    }
  }

  lemma {:induction false} ReachedHolds(n: Node, p: seq<Segment>) returns (q: seq<Segment>)
    requires WellFormed(n) && Reaches(n, p) && p != []
    ensures p <= q && SubsAt(n, q) != map[]
    decreases p
  {
    var kid := Kids(n)[Position(Kids(n), p[0])];
    assert kid in Kids(n);
    var rest;
    if |p| == 1 {
      rest := LiveHolds(kid);
    } else {
      rest := ReachedHolds(kid, p[1..]);
    }
    q := [p[0]] + rest;
    assert q[1..] == rest;
    assert p == [p[0]] + p[1..];
  }

  // ---- Counting nodes ----

  /** The number of nodes of the tree, itself included. */
  function Size(n: Node): nat
    decreases n, 1
  {
    if n.children.NoChildren? then 1 else 1 + SizeAll(n.children.nodes)
  }

  function SizeAll(nodes: seq<Node>): nat
    decreases nodes, 0
  {
    if nodes == [] then 0 else SizeAll(nodes[..|nodes| - 1]) + Size(nodes[|nodes| - 1])
  }

  ghost function Prepended(level: Segment, paths: set<seq<Segment>>): set<seq<Segment>> {
    set p | p in paths :: [level] + p
  }

  /** The paths of all nodes of the tree, relative to `n`. */
  ghost function Paths(n: Node): set<seq<Segment>>
    decreases n, 1
  {
    if n.children.NoChildren? then {[]} else {[]} + PathsAll(n.children.nodes)
  }

  ghost function PathsAll(nodes: seq<Node>): set<seq<Segment>>
    decreases nodes, 0
  {
    if nodes == [] then {}
    else
      var last := nodes[|nodes| - 1];
      PathsAll(nodes[..|nodes| - 1]) + Prepended(last.level, Paths(last))
  }

  lemma {:induction false} PrependedSize(level: Segment, paths: set<seq<Segment>>)
    ensures |Prepended(level, paths)| == |paths|
  {
    if paths != {} {
      var p :| p in paths;
      PrependedSize(level, paths - {p});
      assert Prepended(level, paths) == Prepended(level, paths - {p}) + {[level] + p};
      assert [level] + p !in Prepended(level, paths - {p}) by {
        assert forall q :: q in paths ==> ([level] + q)[1..] == q;
      }
    }
  }

  /** Every node has its own path, so the tree has as many nodes as paths. */
  lemma {:induction false} PathsSize(n: Node)
    requires Unambiguous(n)
    ensures |Paths(n)| == Size(n)
    decreases n, 1
  {
    if n.children.Children? {
      PathsAllSize(n.children.nodes);
      PathsAllHeads(n.children.nodes);
    }
  }

  lemma {:induction false} PathsAllSize(nodes: seq<Node>)
    requires DistinctLevels(nodes) && forall n :: n in nodes ==> Unambiguous(n)
    ensures |PathsAll(nodes)| == SizeAll(nodes)
    decreases nodes, 0
  {
    if nodes != [] {
      var front, last := nodes[..|nodes| - 1], nodes[|nodes| - 1];
      PathsAllSize(front);
      PathsSize(last);
      PrependedSize(last.level, Paths(last));
      PathsAllHeads(front);
      assert PathsAll(front) !! Prepended(last.level, Paths(last));
    }
  }

  /** A path in a forest starts with the level of one of its trees. */
  lemma {:induction false} PathsAllHeads(nodes: seq<Node>)
    ensures forall p :: p in PathsAll(nodes) ==> p != [] && HasLevel(nodes, p[0])
  {
    if nodes != [] {
      var front, last := nodes[..|nodes| - 1], nodes[|nodes| - 1];
      PathsAllHeads(front);
      forall p | p in PathsAll(nodes)
        ensures p != [] && HasLevel(nodes, p[0])
      {
        if p in PathsAll(front) {
          var i :| 0 <= i < |front| && front[i].level == p[0];
          assert nodes[i].level == p[0];
        } else {
          assert last.level == p[0];
        }
      }
    }
  }

  lemma {:induction false} PathsReach(n: Node, p: seq<Segment>)
    requires Unambiguous(n) && p in Paths(n)
    ensures Reaches(n, p)
    decreases n, 1
  {
    if p != [] {
      PathsAllReach(n.children.nodes, p);
    }
  }

  lemma {:induction false} PathsAllReach(nodes: seq<Node>, p: seq<Segment>)
    requires DistinctLevels(nodes) && forall n :: n in nodes ==> Unambiguous(n)
    requires p in PathsAll(nodes)
    ensures p != [] && Position(nodes, p[0]) < |nodes| && Reaches(nodes[Position(nodes, p[0])], p[1..])
    decreases nodes, 0
  {
    var front, last := nodes[..|nodes| - 1], nodes[|nodes| - 1];
    if p in PathsAll(front) {
      PathsAllReach(front, p);
      var i := Position(front, p[0]);
      assert nodes[i] == front[i];
      PositionIs(nodes, i);
    } else {
      var q :| q in Paths(last) && p == [last.level] + q;
      PathsReach(last, q);
      assert p[1..] == q;
      PositionIs(nodes, |nodes| - 1);
    }
  }

  lemma {:induction false} ReachedIsPath(n: Node, p: seq<Segment>)
    requires Reaches(n, p)
    ensures p in Paths(n)
    decreases p
  {
    if p != [] {
      var i := Position(Kids(n), p[0]);
      ReachedIsPath(Kids(n)[i], p[1..]);
      PathBelow(n.children.nodes, i, p[1..]);
      assert p == [p[0]] + p[1..];
    }
  }

  lemma {:induction false} PathBelow(nodes: seq<Node>, i: nat, p: seq<Segment>)
    requires i < |nodes| && p in Paths(nodes[i])
    ensures [nodes[i].level] + p in PathsAll(nodes)
  {
    if i < |nodes| - 1 {
      PathBelow(nodes[..|nodes| - 1], i, p);
    }
  }

  /** What a well-formed trie holds determines its nodes. */
  lemma {:induction false} PathsFromSubs(n: Node, m: Node)
    requires WellFormed(n) && forall q :: SubsAt(n, q) == SubsAt(m, q)
    ensures Paths(n) <= Paths(m)
  {
    WellFormedUnambiguous(n);
    forall p | p in Paths(n)
      ensures p in Paths(m)
    {
      PathsReach(n, p);
      if p != [] {
        var q := ReachedHolds(n, p);
        HeldReaches(m, q);
        ReachesPrefix(m, p, q);
        ReachedIsPath(m, p);
      }
    }
  }

  // ---- Few subscriptions, few nodes ----

  lemma {:induction false} PrefixesOfOne(path: seq<Segment>, s: set<seq<Segment>>)
    requires forall p :: p in s ==> p != [] && p <= path
    ensures |s| <= |path|
    decreases |path|
  {
    if path == [] {
      assert s == {};
    } else {
      var front := path[..|path| - 1];
      forall p | p in s - {path}
        ensures p <= front
      {
        assert |p| == |path| ==> p == path;
      }
      PrefixesOfOne(front, s - {path});
      assert s <= (s - {path}) + {path};
    }
  }

  /** Non-empty prefixes of the paths of `|held|` keys, each path at most `depth` long. */
  lemma {:induction false} PrefixesOfMany<K>(held: map<K, seq<Segment>>, s: set<seq<Segment>>, depth: nat)
    requires forall k :: k in held ==> |held[k]| <= depth
    requires forall p :: p in s ==> p != [] && exists k :: k in held && p <= held[k]
    ensures |s| <= depth * |held|
    decreases |held|
  {
    if held == map[] {
      assert s == {};
    } else {
      var k :| k in held;
      var ofK := set p | p in s && p <= held[k];
      var left := held - {k};
      PrefixesOfOne(held[k], ofK);
      MinusOne(held, k);
      forall p | p in s - ofK
        ensures exists j :: j in left && p <= left[j]
      {
        var j :| j in held && p <= held[j];
        assert j in left;
      }
      PrefixesOfMany(left, s - ofK, depth);
      assert |s| <= |ofK| + |s - ofK| by {
        assert s == ofK + (s - ofK);
      }
      Distribute(depth, |left|);
    }
  }

  lemma {:induction false} MinusOne<K, V>(m: map<K, V>, k: K)
    requires k in m
    ensures |m - {k}| == |m| - 1
  {
    assert (m - {k}).Keys == m.Keys - {k};
    assert |m - {k}| == |(m - {k}).Keys| && |m| == |m.Keys|;
  }

  lemma {:induction false} Distribute(a: int, b: int)
    ensures a * (b + 1) == a * b + a
  {
  }
}
