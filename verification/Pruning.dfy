/** The bottom-up pruning loop of delete, level by level, against the recursive `Uprooted`. */
module Pruning {
  import opened Topics
  import opened Trie
  import opened Cursors

  /** `path` is where the first loop of delete went for the first `|path|` segments. */
  ghost predicate Traced(root: Node, segs: seq<Segment>, path: seq<nat>) {
    && |path| <= |segs|
    && forall d :: 0 <= d <= |path| ==>
         && ValidCursor(root, path[..d])
         && (d < |path| ==>
               path[d] == Position(Kids(NodeAt(root, path[..d])), segs[d]) < |Kids(NodeAt(root, path[..d]))|)
  }

  lemma {:induction false} TracedStep(root: Node, segs: seq<Segment>, path: seq<nat>, i: nat)
    requires Traced(root, segs, path) && |path| < |segs|
    requires ValidCursor(root, path)
    requires i == Position(Kids(NodeAt(root, path)), segs[|path|]) < |Kids(NodeAt(root, path))|
    ensures Traced(root, segs, path + [i])
    ensures ValidCursor(root, path + [i]) && NodeAt(root, path + [i]) == Kids(NodeAt(root, path))[i]
  {
    var longer := path + [i];
    CursorStep(root, path, i, root);
    assert longer[..|longer|] == longer && longer[..|path|] == path;
    assert forall d :: 0 <= d <= |path| ==> longer[..d] == path[..d];
  }

  lemma {:induction false} ReachesStep(n: Node, segs: seq<Segment>, d: nat)
    requires d < |segs|
    ensures var i := Position(Kids(n), segs[d]);
            Reaches(n, segs[d..]) <==> i < |Kids(n)| && Reaches(Kids(n)[i], segs[d + 1..])
  {
    assert segs[d..][1..] == segs[d + 1..];
  }

  /** The tree once levels `d` and deeper are done. */
  ghost function DoneFrom(root: Node, segs: seq<Segment>, path: seq<nat>, key: SubscriptionKey, d: nat): Node
    requires Traced(root, segs, path) && d <= |path|
  {
    Splice(root, path[..d], Uprooted(NodeAt(root, path[..d]), segs[d..], key))
  }

  /** The node that the loop looks at next: level `d` with its child already done. */
  ghost function Parent(root: Node, segs: seq<Segment>, path: seq<nat>, key: SubscriptionKey, d: nat): (p: Node)
    requires Traced(root, segs, path) && d < |path|
    ensures path[d] < |Kids(p)|
  {
    var node := NodeAt(root, path[..d]);
    WithKid(node, path[d], Uprooted(Kids(node)[path[d]], segs[d + 1..], key))
  }

  /** Climbing one level: the node at level `d` is `Parent`, and pruning its child completes the level. */
  lemma {:induction false} Climb(root: Node, segs: seq<Segment>, path: seq<nat>, key: SubscriptionKey, d: nat)
    requires Traced(root, segs, path) && d < |path|
    ensures DoneFrom(root, segs, path, key, d + 1) == Splice(root, path[..d], Parent(root, segs, path, key, d))
    ensures DoneFrom(root, segs, path, key, d) ==
            Splice(root, path[..d], Pruned(Parent(root, segs, path, key, d), path[d]))
  {
    var node := NodeAt(root, path[..d]);
    CursorStep(root, path[..d], path[d], Uprooted(Kids(node)[path[d]], segs[d + 1..], key));
    assert path[..d + 1] == path[..d] + [path[d]];
    assert segs[d..][1..] == segs[d + 1..];
  }

  /** Where the loop breaks, the levels above need no pruning: their child still has children. */
  lemma {:induction false} BreakIsDone(root: Node, segs: seq<Segment>, path: seq<nat>, key: SubscriptionKey, d: nat)
    requires Traced(root, segs, path) && d < |path|
    requires !IsDead(Kids(Parent(root, segs, path, key, d))[path[d]])
    ensures DoneFrom(root, segs, path, key, d + 1) == DoneFrom(root, segs, path, key, 0)
    decreases d
  {
    Climb(root, segs, path, key, d);
    if d > 0 {
      AliveAbove(root, segs, path, key, d);
      BreakIsDone(root, segs, path, key, d - 1);
    }
  }

  lemma {:induction false} AliveAbove(root: Node, segs: seq<Segment>, path: seq<nat>, key: SubscriptionKey, d: nat)
    requires Traced(root, segs, path) && 0 < d < |path|
    requires !IsDead(Kids(Parent(root, segs, path, key, d))[path[d]])
    ensures !IsDead(Kids(Parent(root, segs, path, key, d - 1))[path[d - 1]])
  {
    var above, node := NodeAt(root, path[..d - 1]), NodeAt(root, path[..d]);
    CursorStep(root, path[..d - 1], path[d - 1], root);
    assert path[..d] == path[..d - 1] + [path[d - 1]];
    assert node == Kids(above)[path[d - 1]];
    assert segs[d..][1..] == segs[d + 1..];
    assert Uprooted(node, segs[d..], key) == Parent(root, segs, path, key, d);
  }
}
