/** The router: an object whose trie and index are updated in place. */
module Routers {
  import opened Common
  import opened Topics
  import opened Matching
  import opened Trie
  import opened TrieShape
  import opened TrieSearch
  import opened Cursors
  import opened Pruning
  import opened StackSearch
  import opened Placement
  import opened Runs
  import opened Deliveries
  import opened Moves

  datatype SubscriptionResponse = SubscriptionResponse(
    subscriptionList: seq<Hit>,
    queueGroupList: seq<seq<Hit>>)

  /** Iterates over a subscription map in an arbitrary order. */
  method ListSubscriptions(subs: SubscriptionMap, ghost path: seq<Segment>)
    returns (list: seq<Hit>, ghost entries: seq<Entry>)
    ensures multiset(list) == HitsIn(subs)
    ensures multiset(entries) == EntriesIn(subs, path) && Shows(list, entries)
  {
    list, entries := [], [];
    var left := subs.Keys;
    while left != {}
      invariant left <= subs.Keys
      invariant Shows(list, entries)
      invariant multiset(list) == HitsIn(map key | key in subs && key !in left :: subs[key])
      invariant multiset(entries) == EntriesIn(map key | key in subs && key !in left :: subs[key], path)
      decreases left
    {
      var key :| key in left;
      ghost var done := map k | k in subs && k !in left :: subs[k];
      list := list + [HitOf(key, subs[key])];
      entries := entries + [Entry(path, key, subs[key])];
      left := left - {key};
      EntriesGrow(done, key, subs[key], path);
      HitsGrow(done, key, subs[key]);
      assert (map k | k in subs && k !in left :: subs[k]) == done[key := subs[key]];
    }
    assert (map key | key in subs && key !in left :: subs[key]) == subs;
  }

  lemma {:induction false} EntriesGrow(subs: SubscriptionMap, key: SubscriptionKey, tx: Sender, path: seq<Segment>)
    requires key !in subs
    ensures EntriesIn(subs[key := tx], path) == EntriesIn(subs, path) + multiset{Entry(path, key, tx)}
  {
    forall e: Entry
      ensures EntriesIn(subs[key := tx], path)[e] == (EntriesIn(subs, path) + multiset{Entry(path, key, tx)})[e]
    {
      EntriesCount(subs, path, e);
      EntriesCount(subs[key := tx], path, e);
    }
  }

  /** A hit names its key, so no two keys show the same hit. */
  lemma {:induction false} HitsGrow(subs: SubscriptionMap, key: SubscriptionKey, tx: Sender)
    requires key !in subs
    ensures HitsIn(subs[key := tx]) == HitsIn(subs) + multiset{HitOf(key, tx)}
  {
    var more := subs[key := tx];
    var before := set k | k in subs :: HitOf(k, subs[k]);
    var after := set k | k in more :: HitOf(k, more[k]);
    assert HitOf(key, more[key]) in after;
    assert forall k :: k in subs ==> HitOf(k, more[k]) in after;
    assert after == before + {HitOf(key, tx)};
    assert HitOf(key, tx) !in before;
  }

  /** The lists are those of the queue groups named, group by group. */
  ghost predicate ListsGroups(groups: seq<seq<Hit>>, names: seq<Bytes>, all: map<Bytes, SubscriptionMap>) {
    && |groups| == |names|
    && forall i :: 0 <= i < |names| ==> names[i] in all && multiset(groups[i]) == HitsIn(all[names[i]])
  }

  /** `collect_node`: the subscriptions of one node, and one list for each queue group, in some order. */
  method CollectNode(node: Node, ghost path: seq<Segment>)
    returns (list: seq<Hit>, ghost entries: seq<Entry>, groups: seq<seq<Hit>>, ghost names: seq<Bytes>)
    ensures multiset(list) == HitsIn(node.subs)
    ensures multiset(entries) == Own(node, path) && Shows(list, entries)
    ensures ListsGroups(groups, names, node.groups)
    ensures Distinct(names) && Elements(names) == node.groups.Keys
    ensures |groups| == |node.groups|
  {
    list, entries := ListSubscriptions(node.subs, path);
    groups, names := [], [];
    var left := node.groups.Keys;
    while left != {}
      invariant left <= node.groups.Keys
      invariant ListsGroups(groups, names, node.groups)
      invariant Distinct(names) && Elements(names) == node.groups.Keys - left
      invariant |groups| + |left| == |node.groups|
      decreases left
    {
      var name :| name in left;
      var members, es := ListSubscriptions(node.groups[name], []);
      assert name !in Elements(names);
      groups, names := groups + [members], names + [name];
      assert Elements(names) == node.groups.Keys - left + {name};
      left := left - {name};
    }
  }

  /** The body of the insert loop at one node: set the flag, then find or append the child. */
  method GrowNode(before: Node, segment: Segment) returns (node: Node, childIdx: nat)
    ensures node == Grown(before, segment)
    ensures childIdx == Position(Kids(node), segment) < |Kids(node)|
  {
    node := before;
    if segment == PLUS {
      node := node.(hasSingle := true);
    } else if segment == HASH {
      node := node.(hasMulti := true);
    }
    var children := Kids(node);
    childIdx := Position(children, segment);
    if childIdx == |children| {
      children := children + [NewNode(segment)];
    }
    node := node.(children := Children(children));
    PositionAppend(Kids(before), NewNode(segment), segment);
  }

  /** The body of the pruning loop at one node: remove the dead child, recompute the flag, drop an empty list. */
  method RemoveChild(before: Node, i: nat) returns (node: Node)
    requires i < |Kids(before)| && IsDead(Kids(before)[i])
    ensures node == Pruned(before, i)
  {
    node := before;
    var removed := node.children.nodes[i].level;
    var children := Without(node.children.nodes, i);
    if removed == PLUS {
      node := node.(hasSingle := HasLevel(children, PLUS));
    } else if removed == HASH {
      node := node.(hasMulti := HasLevel(children, HASH));
    }
    node := node.(children := if children == [] then NoChildren else Children(children));
  }

  /** The inner loop of search: push each child that follows the next segment. */
  method PushFollowers(below: seq<Frame>, ghost belowPrefixes: seq<seq<Segment>>,
                       children: seq<Node>, ghost prefix: seq<Segment>, remaining: seq<Segment>)
    returns (stack: seq<Frame>, ghost prefixes: seq<seq<Segment>>)
    requires |below| == |belowPrefixes| && AllSearchable(below)
    requires remaining != [] && forall kid :: kid in children ==> Searchable(kid)
    ensures |stack| == |prefixes| && AllSearchable(stack)
    ensures Owed(stack, prefixes) == Owed(below, belowPrefixes) + KidsAnswer(children, prefix, remaining)
    ensures Potential(stack) == Potential(below) + FollowersCost(children, remaining[0], Cost(|remaining| - 1))
  {
    stack, prefixes := below, belowPrefixes;
    ghost var c, owed, potential := Cost(|remaining| - 1), Owed(below, belowPrefixes), Potential(below);
    for n := 0 to |children|
      invariant |stack| == |prefixes| && AllSearchable(stack)
      invariant Owed(stack, prefixes) == owed + KidsAnswer(children[..n], prefix, remaining)
      invariant Potential(stack) == potential + FollowersCost(children[..n], remaining[0], c)
    {
      var child := children[n];
      NextSibling(children, n, prefix, remaining, c);
      PushFollower(stack, prefixes, child, prefix, remaining);
      if child.level == remaining[0] || child.level == PLUS {
        stack, prefixes := stack + [(child, remaining[1..])], prefixes + [prefix + [child.level]];
      }
    }
    assert children[..|children|] == children;
  }

  /** `#` matches zero or more levels: a `#` child is collected whatever segments remain. */
  method CollectMulti(node: Node, ghost prefix: seq<Segment>)
    returns (list: seq<Hit>, ghost entries: seq<Entry>, groups: seq<seq<Hit>>)
    requires Searchable(node)
    ensures multiset(entries) == Absorbed(node, prefix) && Shows(list, entries)
    ensures groups == []
  {
    list, entries, groups := [], [], [];
    if node.hasMulti && node.children.Children? {
      var i := Position(node.children.nodes, HASH);
      if i < |node.children.nodes| {
        assert node.children.nodes[i] in Kids(node);
        ghost var names;
        list, entries, groups, names := CollectNode(node.children.nodes[i], prefix + [HASH]);
      }
    }
  }

  /** One iteration of the search loop, after its frame was popped from the stack. */
  method Visit(node: Node, ghost prefix: seq<Segment>, remaining: seq<Segment>,
               below: seq<Frame>, ghost belowPrefixes: seq<seq<Segment>>)
    returns (list: seq<Hit>, ghost entries: seq<Entry>, groups: seq<seq<Hit>>,
             stack: seq<Frame>, ghost prefixes: seq<seq<Segment>>)
    requires Searchable(node) && AllSearchable(below) && |below| == |belowPrefixes|
    ensures |stack| == |prefixes| && AllSearchable(stack)
    ensures Shows(list, entries) && groups == []
    ensures multiset(entries) + Owed(stack, prefixes) == Answer(node, prefix, remaining) + Owed(below, belowPrefixes)
    ensures Potential(stack) + 1 <= Potential(below) + Cost(|remaining|)
  {
    list, entries, groups := CollectMulti(node, prefix);
    stack, prefixes := below, belowPrefixes;
    if remaining == [] {
      var own, ownEntries, ownGroups, names := CollectNode(node, prefix);
      ShowsAppend(list, entries, own, ownEntries);
      list, entries, groups := list + own, entries + ownEntries, groups + ownGroups;
      return;
    }
    if node.children.NoChildren? {
      return;
    }
    PopPays(node.children.nodes, remaining);
    stack, prefixes := PushFollowers(stack, prefixes, node.children.nodes, prefix, remaining);
  }

  /**
    The search loop. At every iteration the entries collected and the entries the
    stack still owes are together the answer of the root; and every pop is paid
    for by the potential of the stack, however many subscriptions there are.
   */
  method SearchTrie(root: Node, segments: seq<Segment>)
    returns (list: seq<Hit>, groups: seq<seq<Hit>>, ghost entries: seq<Entry>, ghost pops: nat)
    requires Searchable(root)
    ensures multiset(entries) == Answer(root, [], segments) && Shows(list, entries)
    ensures groups == []
    ensures pops <= Pow2(|segments| + 1) - 1
  {
    list, groups, entries, pops := [], [], [], 0;
    var stack: seq<Frame> := [(root, segments)];
    ghost var prefixes: seq<seq<Segment>> := [[]];
    OwedPush([], [], (root, segments), []);
    PotentialPush([], (root, segments));
    assert [] + [(root, segments)] == stack && [] + [[]] == prefixes;
    while stack != []
      invariant |stack| == |prefixes| && AllSearchable(stack)
      invariant multiset(entries) + Owed(stack, prefixes) == Answer(root, [], segments)
      invariant Shows(list, entries) && groups == []
      invariant pops + Potential(stack) <= Cost(|segments|)
      decreases Potential(stack)
    {
      var (node, remaining) := stack[|stack| - 1];
      assert stack[|stack| - 1] in stack;
      ghost var prefix, below := prefixes[|stack| - 1], Owed(stack[..|stack| - 1], prefixes[..|stack| - 1]);
      assert Owed(stack, prefixes) == below + Answer(node, prefix, remaining);
      var more, moreGroups;
      ghost var moreEntries;
      more, moreEntries, moreGroups, stack, prefixes :=
        Visit(node, prefix, remaining, stack[..|stack| - 1], prefixes[..|stack| - 1]);
      Conserve(entries, moreEntries, below, Answer(node, prefix, remaining), Owed(stack, prefixes),
               Answer(root, [], segments));
      ShowsAppend(list, entries, more, moreEntries);
      list, entries, groups := list + more, entries + moreEntries, groups + moreGroups;
      pops := pops + 1;
    }
  }

  class Router {
    var root: Node
    var index: map<SubscriptionKey, TopicFilter>
    /** Every insert and delete so far. */
    ghost var history: seq<Op>

    /** The object is where its history leads from the fresh router. */
    ghost predicate Valid()
      reads this
    {
      State(root, index) == Run(history)
    }

    constructor ()
      ensures Valid() && history == []
    {
      root := NewNode([]);
      index := map[];
      history := [];
    }

    method Insert(tx: Sender, clientId: U64, subscriptionId: U32, topic: TopicFilter)
      requires Valid()
      modifies this
      ensures Valid()
      ensures history == old(history) + [Op.Insert(tx, SubscriptionKey(clientId, subscriptionId), topic)]
      ensures index == old(index)[SubscriptionKey(clientId, subscriptionId) := topic]
      ensures forall e: Entry :: Holds(root, [], e) <==>
                if e.path == Segments(topic) && e.key == SubscriptionKey(clientId, subscriptionId) then e.tx == tx
                else Holds(old(root), [], e)
    {
      var key := SubscriptionKey(clientId, subscriptionId);
      Plant(tx, key, Segments(topic));
      PlantedHoldsAll(old(root), Segments(topic), key, tx);
      index := index[key := topic];
      history := history + [Op.Insert(tx, key, topic)];
      RunSnoc(old(history), Op.Insert(tx, key, topic));
    }

    /** The walk of insert: `cursor` is the borrowed node, grown segment by segment. */
    method Plant(tx: Sender, key: SubscriptionKey, segments: seq<Segment>)
      modifies this`root
      ensures root == Planted(old(root), segments, key, tx)
    {
      var cursor: seq<nat> := [];
      for n := 0 to |segments|
        invariant ValidCursor(root, cursor)
        invariant Planted(old(root), segments, key, tx) ==
                  Splice(root, cursor, Planted(NodeAt(root, cursor), segments[n..], key, tx))
      {
        InsertStep(root, cursor, segments[n..], key, tx);
        var node, childIdx := GrowNode(NodeAt(root, cursor), segments[n]);
        root := Splice(root, cursor, node);
        cursor := cursor + [childIdx];
        assert segments[n..][1..] == segments[n + 1..];
      }
      var node := NodeAt(root, cursor);
      root := Splice(root, cursor, node.(subs := node.subs[key := tx]));
    }

    method Delete(key: SubscriptionKey)
      requires Valid()
      modifies this
      ensures Valid()
      ensures history == old(history) + [Op.Delete(key)]
      ensures index == old(index) - {key}
      ensures key !in old(index) ==> root == old(root)
      ensures key in old(index) ==> forall e: Entry :: Holds(root, [], e) <==>
                Holds(old(root), [], e) && !(e.key == key && e.path == Segments(old(index)[key]))
    {
      RunCarries(history);
      history := history + [Op.Delete(key)];
      RunSnoc(old(history), Op.Delete(key));
      if key !in index {
        return;
      }
      var segments := Segments(index[key]);
      var found, path := Locate(segments);
      DeleteSound(Run(old(history)), key);
      if !found {
        assert false;
        return;
      }
      Uproot(key, segments, path);
      index := index - {key};
      UprootedHoldsAll(old(root), segments, key);
    }

    /** Returns the flat scan of the live subscriptions, and more only for pairs that a move left behind. */
    method Search(topic: Topic)
      returns (response: SubscriptionResponse, ghost pops: nat)
      requires Valid()
      ensures AnswerList(root, Segments(topic), response.subscriptionList)
      ensures response.queueGroupList == []
      ensures pops <= Pow2(|Segments(topic)| + 1) - 1 <= 511
      ensures Scan(LiveRun(history), topic) <= multiset(response.subscriptionList)
      ensures Tidy(history) ==> multiset(response.subscriptionList) == Scan(LiveRun(history), topic)
    {
      RunCarries(history);
      TopicIsHashFree(topic);
      CostOfTopic(|Segments(topic)|);
      WellFormedSearchable(root);
      var list, groups;
      ghost var entries;
      list, groups, entries, pops := SearchTrie(root, Segments(topic));
      ShownAnswer(root, Segments(topic), list, entries);
      RunNeverMisses(history, topic, list);
      if Tidy(history) {
        RunSearch(history, topic, list);
      }
      response := SubscriptionResponse(list, groups);
    }

    /** The first loop of delete: record the child index taken for each segment, or give up. */
    method Locate(segments: seq<Segment>) returns (found: bool, path: seq<nat>)
      ensures found <==> Reaches(root, segments)
      ensures found ==> |path| == |segments| && Traced(root, segments, path)
    {
      path := [];
      var node := root;
      for n := 0 to |segments|
        invariant |path| == n && Traced(root, segments, path)
        invariant ValidCursor(root, path) && node == NodeAt(root, path)
        invariant Reaches(root, segments) <==> Reaches(node, segments[n..])
      {
        ReachesStep(node, segments, n);
        if node.children.NoChildren? {
          return false, path;
        }
        var idx := Position(node.children.nodes, segments[n]);
        if idx == |node.children.nodes| {
          return false, path;
        }
        TracedStep(root, segments, path, idx);
        path := path + [idx];
        node := node.children.nodes[idx];
      }
      return true, path;
    }

    /** The rest of delete: remove at the leaf, then prune upwards along the recorded indices. */
    method Uproot(key: SubscriptionKey, segments: seq<Segment>, path: seq<nat>)
      requires |path| == |segments| && Traced(root, segments, path)
      modifies this`root
      ensures root == Uprooted(old(root), segments, key)
    {
      assert path[..|path|] == path;
      var leaf := NodeAt(root, path);
      root := Splice(root, path, leaf.(subs := leaf.subs - {key}));
      for depth := |path| downto 0
        invariant root == DoneFrom(old(root), segments, path, key, depth)
      {
        Climb(old(root), segments, path, key, depth);
        ghost var parent := Parent(old(root), segments, path, key, depth);
        SpliceRead(old(root), path[..depth], parent, Pruned(parent, path[depth]));
        var node := NodeAt(root, path[..depth]);
        var child := node.children.nodes[path[depth]];
        if child.subs == map[] && child.groups == map[] && child.children.NoChildren? {
          node := RemoveChild(node, path[depth]);
          root := Splice(root, path[..depth], node);
        } else {
          BreakIsDone(old(root), segments, path, key, depth);
          break;
        }
      }
    }
  }

  /** Growing the node under the cursor and stepping into its child leaves the goal unchanged. */
  lemma {:induction false} InsertStep(root: Node, cursor: seq<nat>, segs: seq<Segment>,
                                      key: SubscriptionKey, tx: Sender)
    requires ValidCursor(root, cursor) && segs != []
    ensures var grown := Grown(NodeAt(root, cursor), segs[0]);
            var i := Position(Kids(grown), segs[0]);
            var after := Splice(root, cursor, grown);
            && ValidCursor(after, cursor + [i])
            && Splice(root, cursor, Planted(NodeAt(root, cursor), segs, key, tx)) ==
               Splice(after, cursor + [i], Planted(NodeAt(after, cursor + [i]), segs[1..], key, tx))
  {
    var grown := Grown(NodeAt(root, cursor), segs[0]);
    var i := Position(Kids(grown), segs[0]);
    var after := Splice(root, cursor, grown);
    var x := Planted(Kids(grown)[i], segs[1..], key, tx);
    SpliceRead(root, cursor, grown, WithKid(grown, i, x));
    CursorStep(after, cursor, i, x);
  }
}
