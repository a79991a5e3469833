/**
  Borrowing inside an owned tree. A `&mut Node` reached by stepping through child
  lists is the list of child indices from the root; writing through it replaces
  the subtree there. These are the laws the router's loops rely on.
 */
module Cursors {
  import opened Trie

  predicate ValidCursor(n: Node, cursor: seq<nat>)
    decreases cursor
  {
    cursor == [] || (cursor[0] < |Kids(n)| && ValidCursor(Kids(n)[cursor[0]], cursor[1..]))
  }

  function NodeAt(n: Node, cursor: seq<nat>): Node
    requires ValidCursor(n, cursor)
    decreases cursor
  {
    if cursor == [] then n else NodeAt(Kids(n)[cursor[0]], cursor[1..])
  }

  function Splice(n: Node, cursor: seq<nat>, sub: Node): Node
    requires ValidCursor(n, cursor)
    decreases cursor
  {
    if cursor == [] then sub
    else WithKid(n, cursor[0], Splice(Kids(n)[cursor[0]], cursor[1..], sub))
  }

  /** What was written is what is read, and the last write wins. */
  lemma {:induction false} SpliceRead(n: Node, cursor: seq<nat>, x: Node, y: Node)
    requires ValidCursor(n, cursor)
    ensures ValidCursor(Splice(n, cursor, x), cursor)
    ensures NodeAt(Splice(n, cursor, x), cursor) == x
    ensures Splice(Splice(n, cursor, x), cursor, y) == Splice(n, cursor, y)
    decreases cursor
  {
    if cursor != [] {
      var kid := Kids(n)[cursor[0]];
      SpliceRead(kid, cursor[1..], x, y);
      var m := Splice(n, cursor, x);
      assert Kids(m) == Kids(n)[cursor[0] := Splice(kid, cursor[1..], x)];
      assert Kids(m)[cursor[0] := Splice(kid, cursor[1..], y)] ==
             Kids(n)[cursor[0] := Splice(kid, cursor[1..], y)];
    }
  }

  /** One step deeper: reading takes a child of the node, writing replaces that child. */
  lemma {:induction false} CursorStep(n: Node, cursor: seq<nat>, i: nat, x: Node)
    requires ValidCursor(n, cursor) && i < |Kids(NodeAt(n, cursor))|
    ensures ValidCursor(n, cursor + [i])
    ensures NodeAt(n, cursor + [i]) == Kids(NodeAt(n, cursor))[i]
    ensures Splice(n, cursor + [i], x) == Splice(n, cursor, WithKid(NodeAt(n, cursor), i, x))
    decreases cursor
  {
    if cursor == [] {
      assert [] + [i] == [i];
      assert [i][1..] == [];
    } else {
      assert (cursor + [i])[1..] == cursor[1..] + [i];
      CursorStep(Kids(n)[cursor[0]], cursor[1..], i, x);
    }
  }
}
