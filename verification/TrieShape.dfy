/**
  Inserting and deleting change exactly one entry, keep the structural
  invariant, and undo each other.
 */
module TrieShape {
  import opened Topics
  import opened Matching
  import opened Trie

  // ---- Positions under the updates that insert and delete make ----

  lemma {:induction false} PositionIs(nodes: seq<Node>, i: nat)
    requires i < |nodes| && forall j :: 0 <= j < i ==> nodes[j].level != nodes[i].level
    ensures Position(nodes, nodes[i].level) == i
  {
  }

  lemma {:induction false} PositionUpdate(nodes: seq<Node>, i: nat, kid: Node, level: Segment)
    requires i < |nodes| && kid.level == nodes[i].level
    ensures Position(nodes[i := kid], level) == Position(nodes, level)
  {
    var p, q := Position(nodes, level), Position(nodes[i := kid], level);
    assert p < |nodes| ==> nodes[i := kid][p].level == level;
  }

  lemma {:induction false} PositionAppend(nodes: seq<Node>, kid: Node, level: Segment)
    ensures var p := Position(nodes, level);
            Position(nodes + [kid], level) ==
            if p < |nodes| || kid.level == level then p else |nodes| + 1
  {
    var p, q := Position(nodes, level), Position(nodes + [kid], level);
    assert forall j :: 0 <= j < |nodes| ==> (nodes + [kid])[j] == nodes[j];
    assert (nodes + [kid])[|nodes|] == kid;
  }

  lemma {:induction false} PositionWithout(nodes: seq<Node>, i: nat, level: Segment)
    requires i < |nodes| && DistinctLevels(nodes)
    ensures var p := Position(nodes, level);
            Position(Without(nodes, i), level) ==
            if level == nodes[i].level then |nodes| - 1 else if p < i then p else p - 1
  {
    var left := Without(nodes, i);
    var p, q := Position(nodes, level), Position(left, level);
    if q < |left| {
      assert left[q] == nodes[if q < i then q else q + 1];
    }
    if p < |nodes| && p != i {
      assert left[if p < i then p else p - 1] == nodes[p];
    }
  }

  // ---- Insert touches one entry ----

  lemma {:induction false} GrownSubs(n: Node, segment: Segment, q: seq<Segment>)
    ensures SubsAt(Grown(n, segment), q) == SubsAt(n, q)
  {
    if q != [] {
      PositionAppend(Kids(n), NewNode(segment), q[0]);
      assert SubsAt(NewNode(segment), q[1..]) == map[];
    }
  }

  /** Replacing the child for one level changes only what lies under that level. */
  lemma {:induction false} WithKidSubs(n: Node, level: Segment, kid: Node, q: seq<Segment>)
    requires Position(Kids(n), level) < |Kids(n)| && kid.level == level
    ensures SubsAt(WithKid(n, Position(Kids(n), level), kid), q) ==
            if q != [] && q[0] == level then SubsAt(kid, q[1..]) else SubsAt(n, q)
  {
    if q != [] {
      PositionUpdate(Kids(n), Position(Kids(n), level), kid, q[0]);
    }
  }

  /** Inserting sets the sender of `key` at `path` and changes no other entry of the trie. */
  lemma {:induction false} PlantedSubs(n: Node, path: seq<Segment>, key: SubscriptionKey, tx: Sender, q: seq<Segment>)
    ensures SubsAt(Planted(n, path, key, tx), q) ==
            if q == path then SubsAt(n, path)[key := tx] else SubsAt(n, q)
    decreases path
  {
    if path != [] {
      var g := Grown(n, path[0]);
      var before := Kids(g)[Position(Kids(g), path[0])];
      var kid := Planted(before, path[1..], key, tx);
      GrownSubs(n, path[0], q);
      PlantedLevel(before, path[1..], key, tx);
      WithKidSubs(g, path[0], kid, q);
      if q != [] && q[0] == path[0] {
        PlantedSubs(before, path[1..], key, tx, q[1..]);
        assert q == [q[0]] + q[1..] && path == [path[0]] + path[1..];
      }
    }
  }

  lemma {:induction false} PlantedLevel(n: Node, path: seq<Segment>, key: SubscriptionKey, tx: Sender)
    ensures Planted(n, path, key, tx).level == n.level
    ensures Planted(n, path, key, tx).groups == n.groups
    ensures !IsDead(Planted(n, path, key, tx))
  {
    if path == [] {
      assert key in Planted(n, path, key, tx).subs;
    }
  }

  // ---- The invariant at one node, while one of its children is being worked on ----

  /** `Local`, except that child `i` may be empty: new on insert, or robbed of its last entry on delete. */
  ghost predicate LocalBut(n: Node, i: nat) {
    && i < |Kids(n)|
    && n.groups == map[]
    && DistinctLevels(Kids(n))
    && (n.hasSingle <==> HasLevel(Kids(n), PLUS))
    && (n.hasMulti <==> HasLevel(Kids(n), HASH))
    && (forall j :: 0 <= j < |Kids(n)| && j != i ==> !IsDead(Kids(n)[j]))
    && (forall j :: 0 <= j < |Kids(n)| && Kids(n)[j].level == HASH ==> Kids(n)[j].children.NoChildren?)
  }

  lemma {:induction false} HasLevelAppend(nodes: seq<Node>, kid: Node, level: Segment)
    ensures HasLevel(nodes + [kid], level) <==> HasLevel(nodes, level) || level == kid.level
  {
    var all := nodes + [kid];
    assert all[|nodes|] == kid;
    if HasLevel(nodes, level) {
      var j :| 0 <= j < |nodes| && nodes[j].level == level;
      assert all[j] == nodes[j];
    }
  }

  lemma {:induction false} HasLevelUpdate(nodes: seq<Node>, i: nat, kid: Node, level: Segment)
    requires i < |nodes| && kid.level == nodes[i].level
    ensures HasLevel(nodes[i := kid], level) <==> HasLevel(nodes, level)
  {
    if HasLevel(nodes, level) {
      var j :| 0 <= j < |nodes| && nodes[j].level == level;
      assert nodes[i := kid][j].level == level;
    }
  }

  lemma {:induction false} HasLevelWithout(nodes: seq<Node>, i: nat, level: Segment)
    requires i < |nodes| && DistinctLevels(nodes)
    ensures HasLevel(Without(nodes, i), level) <==> HasLevel(nodes, level) && level != nodes[i].level
  {
    var left := Without(nodes, i);
    if HasLevel(nodes, level) && level != nodes[i].level {
      var j :| 0 <= j < |nodes| && nodes[j].level == level;
      assert left[if j < i then j else j - 1] == nodes[j];
    }
    if HasLevel(left, level) {
      var j :| 0 <= j < |left| && left[j].level == level;
      assert nodes[if j < i then j else j + 1] == left[j];
    }
  }

  lemma {:induction false} GrownLocal(n: Node, segment: Segment)
    requires Local(n)
    ensures var i := Position(Kids(n), segment);
            i == Position(Kids(Grown(n, segment)), segment) && LocalBut(Grown(n, segment), i)
  {
    var kids := Kids(n);
    var i := Position(kids, segment);
    PositionAppend(kids, NewNode(segment), segment);
    if i < |kids| {
      assert kids[i].level == segment && HasLevel(kids, segment);
    } else {
      HasLevelAppend(kids, NewNode(segment), PLUS);
      HasLevelAppend(kids, NewNode(segment), HASH);
    }
  }

  lemma {:induction false} WithKidLocal(n: Node, i: nat, kid: Node)
    requires LocalBut(n, i)
    requires kid.level == Kids(n)[i].level
    requires kid.level == HASH ==> kid.children.NoChildren?
    ensures LocalBut(WithKid(n, i, kid), i)
    ensures !IsDead(kid) ==> Local(WithKid(n, i, kid))
  {
    HasLevelUpdate(Kids(n), i, kid, PLUS);
    HasLevelUpdate(Kids(n), i, kid, HASH);
    var m := WithKid(n, i, kid);
    assert Kids(m) == Kids(n)[i := kid];
    assert forall j :: 0 <= j < |Kids(n)| && j != i ==> Kids(m)[j] == Kids(n)[j];
  }

  lemma {:induction false} PrunedLocal(n: Node, i: nat)
    requires LocalBut(n, i)
    ensures Local(Pruned(n, i))
  {
    if IsDead(Kids(n)[i]) {
      var left := Without(Kids(n), i);
      HasLevelWithout(Kids(n), i, PLUS);
      HasLevelWithout(Kids(n), i, HASH);
      assert Kids(Pruned(n, i)) == left;
      assert forall j :: 0 <= j < |left| ==> left[j] == Kids(n)[if j < i then j else j + 1];
    }
  }

  // ---- Insert keeps the invariant ----

  /** Inserting under a path with `#` at most last keeps the trie well formed. */
  lemma {:induction false} PlantedWellFormed(n: Node, path: seq<Segment>, key: SubscriptionKey, tx: Sender)
    requires WellFormed(n) && HashLast(path)
    ensures WellFormed(Planted(n, path, key, tx))
    decreases path
  {
    if path != [] {
      var g := Grown(n, path[0]);
      var i := Position(Kids(n), path[0]);
      var before := Kids(g)[i];
      var kid := Planted(before, path[1..], key, tx);
      GrownLocal(n, path[0]);
      PlantedWellFormed(before, path[1..], key, tx);
      PlantedLevel(before, path[1..], key, tx);
      assert path[0] == HASH ==> path[1..] == [];
      WithKidLocal(g, i, kid);
      KidsAfterPlanting(n, path[0], kid);
    }
  }

  lemma {:induction false} KidsAfterPlanting(n: Node, segment: Segment, kid: Node)
    ensures var g := Grown(n, segment); var i := Position(Kids(g), segment);
            && (forall k :: k in Kids(WithKid(g, i, kid)) ==> k == kid || k in Kids(n))
            && (Kids(g)[i] in Kids(n) || Kids(g)[i] == NewNode(segment))
  {
    PositionAppend(Kids(n), NewNode(segment), segment);
  }

  // ---- Delete touches one entry ----

  lemma {:induction false} DeadHoldsNothing(n: Node, q: seq<Segment>)
    requires IsDead(n)
    ensures SubsAt(n, q) == map[]
  {
  }

  lemma {:induction false} PrunedSubs(n: Node, i: nat, q: seq<Segment>)
    requires i < |Kids(n)| && DistinctLevels(Kids(n))
    ensures SubsAt(Pruned(n, i), q) == SubsAt(n, q)
  {
    if q != [] && IsDead(Kids(n)[i]) {
      PositionWithout(Kids(n), i, q[0]);
      PositionIs(Kids(n), i);
      DeadHoldsNothing(Kids(n)[i], q[1..]);
      assert Kids(Pruned(n, i)) == Without(Kids(n), i);
    }
  }

  lemma {:induction false} UprootedLevel(n: Node, path: seq<Segment>, key: SubscriptionKey)
    ensures Uprooted(n, path, key).level == n.level
    ensures Uprooted(n, path, key).groups == n.groups
    ensures n.children.NoChildren? ==> Uprooted(n, path, key).children.NoChildren?
  {
    if path != [] {
      var i := Position(Kids(n), path[0]);
      if i < |Kids(n)| {
        PrunedLevel(WithKid(n, i, Uprooted(Kids(n)[i], path[1..], key)), i);
      }
    }
  }

  lemma {:induction false} PrunedLevel(n: Node, i: nat)
    requires i < |Kids(n)|
    ensures Pruned(n, i).level == n.level && Pruned(n, i).groups == n.groups
  {
  }

  lemma {:induction false} PrunedWithKidSubs(n: Node, level: Segment, kid: Node, q: seq<Segment>)
    requires DistinctLevels(Kids(n))
    requires Position(Kids(n), level) < |Kids(n)| && kid.level == level
    ensures var i := Position(Kids(n), level);
            SubsAt(Pruned(WithKid(n, i, kid), i), q) ==
            if q != [] && q[0] == level then SubsAt(kid, q[1..]) else SubsAt(n, q)
  {
    var i := Position(Kids(n), level);
    assert Kids(WithKid(n, i, kid)) == Kids(n)[i := kid];
    WithKidSubs(n, level, kid, q);
    PrunedSubs(WithKid(n, i, kid), i, q);
  }

  /** No node has two children with the same level. */
  ghost predicate Unambiguous(n: Node) {
    DistinctLevels(Kids(n)) && forall kid :: kid in Kids(n) ==> Unambiguous(kid)
  }

  lemma {:induction false} WellFormedUnambiguous(n: Node)
    requires WellFormed(n)
    ensures Unambiguous(n)
    decreases n
  {
    forall kid | kid in Kids(n)
      ensures Unambiguous(kid)
    {
      WellFormedUnambiguous(kid);
    }
  }

  /** Deleting removes `key` at `path` and changes no other entry, although nodes move and vanish. */
  lemma {:induction false} UprootedSubs(n: Node, path: seq<Segment>, key: SubscriptionKey, q: seq<Segment>)
    requires Unambiguous(n)
    ensures SubsAt(Uprooted(n, path, key), q) ==
            if q == path then SubsAt(n, path) - {key} else SubsAt(n, q)
    decreases path
  {
    if path != [] {
      var i := Position(Kids(n), path[0]);
      if i < |Kids(n)| {
        var before := Kids(n)[i];
        var kid := Uprooted(before, path[1..], key);
        UprootedLevel(before, path[1..], key);
        PrunedWithKidSubs(n, path[0], kid, q);
        if q != [] && q[0] == path[0] {
          assert q == path <==> q[1..] == path[1..] by {
            assert q == [q[0]] + q[1..] && path == [path[0]] + path[1..];
          }
          UprootedSubs(before, path[1..], key, q[1..]);
        }
      } else if q == path {
        assert SubsAt(n, path) == map[];
      }
    }
  }

  // ---- Delete keeps the invariant ----

  /** Deleting keeps the trie well formed. */
  lemma {:induction false} UprootedWellFormed(n: Node, path: seq<Segment>, key: SubscriptionKey)
    requires WellFormed(n)
    ensures WellFormed(Uprooted(n, path, key))
    decreases path
  {
    if path != [] {
      var kids := Kids(n);
      var i := Position(kids, path[0]);
      if i < |kids| {
        var kid := Uprooted(kids[i], path[1..], key);
        var m := WithKid(n, i, kid);
        UprootedLevel(kids[i], path[1..], key);
        UprootedWellFormed(kids[i], path[1..], key);
        WithKidLocal(n, i, kid);
        PrunedLocal(m, i);
        KidsAfterPrune(n, i, kid);
      }
    }
  }

  lemma {:induction false} KidsAfterPrune(n: Node, i: nat, kid: Node)
    requires i < |Kids(n)|
    ensures forall k :: k in Kids(Pruned(WithKid(n, i, kid), i)) ==> k == kid || k in Kids(n)
  {
    assert Kids(WithKid(n, i, kid)) == Kids(n)[i := kid];
  }

  // ---- Delete undoes insert ----

  /** Dropping a child that was appended for nothing gives back the node as it was. */
  lemma {:induction false} PruneAppended(n: Node, segment: Segment)
    requires Local(n) && Position(Kids(n), segment) == |Kids(n)|
    ensures Kids(Grown(n, segment)) == Kids(n) + [NewNode(segment)]
    ensures Pruned(Grown(n, segment), |Kids(n)|) == n
  {
    assert Without(Kids(n) + [NewNode(segment)], |Kids(n)|) == Kids(n);
    assert !HasLevel(Kids(n), segment);
  }

  lemma {:induction false} PruneGrown(n: Node, segment: Segment)
    requires Local(n)
    ensures Pruned(Grown(n, segment), Position(Kids(Grown(n, segment)), segment)) == n
  {
    var kids := Kids(n);
    var i := Position(kids, segment);
    if i == |kids| {
      PruneAppended(n, segment);
      PositionAppend(kids, NewNode(segment), segment);
    } else {
      assert kids[i].level == segment && HasLevel(kids, segment);
      assert Grown(n, segment) == n;
    }
  }

  /** Deleting a subscription just inserted gives back the very same tree, order and flags included. */
  lemma {:induction false} UprootPlanted(n: Node, path: seq<Segment>, key: SubscriptionKey, tx: Sender)
    requires WellFormed(n) && key !in SubsAt(n, path)
    ensures Uprooted(Planted(n, path, key, tx), path, key) == n
    decreases path
  {
    if path == [] {
      assert n.subs[key := tx] - {key} == n.subs;
    } else {
      var g := Grown(n, path[0]);
      var i := Position(Kids(g), path[0]);
      var before := Kids(g)[i];
      var kid := Planted(before, path[1..], key, tx);
      assert Uprooted(kid, path[1..], key) == before by {
        KidsAfterPlanting(n, path[0], kid);
        GrownSubs(n, path[0], path);
        UprootPlanted(before, path[1..], key, tx);
      }
      PlantedLevel(before, path[1..], key, tx);
      RegrowKid(g, i, kid, path, key);
      PruneGrown(n, path[0]);
    }
  }

  lemma {:induction false} RegrowKid(g: Node, i: nat, kid: Node, path: seq<Segment>, key: SubscriptionKey)
    requires path != [] && i == Position(Kids(g), path[0]) < |Kids(g)|
    requires kid.level == Kids(g)[i].level
    requires Uprooted(kid, path[1..], key) == Kids(g)[i]
    ensures Uprooted(WithKid(g, i, kid), path, key) == Pruned(g, i)
  {
    PositionUpdate(Kids(g), i, kid, path[0]);
    var p := WithKid(g, i, kid);
    assert WithKid(p, i, Kids(g)[i]) == g by {
      assert Kids(p)[i := Kids(g)[i]] == Kids(g);
    }
  }
}
