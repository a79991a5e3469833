/**
  What the depth-first search collects, as a recursive function, and the proof
  that it is exactly the entries of the trie whose path matches the topic.
 */
module TrieSearch {
  import opened Common
  import opened Topics
  import opened Matching
  import opened Trie
  import opened TrieShape

  /** One subscription held by the trie, with the filter path it is held under. */
  datatype Entry = Entry(path: seq<Segment>, key: SubscriptionKey, tx: Sender)

  /** What the caller of search gets to see of an entry. */
  datatype Subscription = Subscription(subscriptionId: U32, tx: Sender)

  type Hit = (U64, Subscription)

  /** What `collect_node` pushes for one subscription. */
  function HitOf(key: SubscriptionKey, tx: Sender): Hit {
    (key.clientId, Subscription(key.subscriptionId, tx))
  }

  /** The list shows these entries, one by one. */
  ghost predicate Shows(list: seq<Hit>, entries: seq<Entry>) {
    && |list| == |entries|
    && forall i :: 0 <= i < |list| ==>
         var e := entries[i];
         list[i] == (e.key.clientId, Subscription(e.key.subscriptionId, e.tx))
  }

  /** A subscription map, as the caller of search sees it. */
  ghost function HitsIn(subs: SubscriptionMap): multiset<Hit> {
    multiset(set key | key in subs :: (key.clientId, Subscription(key.subscriptionId, subs[key])))
  }

  ghost function EntriesIn(subs: SubscriptionMap, path: seq<Segment>): multiset<Entry> {
    multiset(set key | key in subs :: Entry(path, key, subs[key]))
  }

  /** The subscriptions of one node, as entries. */
  ghost function Own(n: Node, path: seq<Segment>): multiset<Entry> {
    EntriesIn(n.subs, path)
  }

  /** Everything the search collects below `n`, which sits at `prefix`, for the remaining segments. */
  ghost function Answer(n: Node, prefix: seq<Segment>, remaining: seq<Segment>): multiset<Entry>
    decreases |remaining|, 1, 0
  {
    Absorbed(n, prefix) +
    if remaining == [] then Own(n, prefix) else KidsAnswer(Kids(n), prefix, remaining)
  }

  /** What the `#` child of `n` contributes, whatever segments remain. */
  ghost function Absorbed(n: Node, prefix: seq<Segment>): multiset<Entry> {
    var i := Position(Kids(n), HASH);
    if n.hasMulti && i < |Kids(n)| then Own(Kids(n)[i], prefix + [HASH]) else multiset{}
  }

  predicate Follows(kid: Node, segment: Segment) {
    kid.level == segment || kid.level == PLUS
  }

  ghost function KidsAnswer(kids: seq<Node>, prefix: seq<Segment>, remaining: seq<Segment>): multiset<Entry>
    requires remaining != []
    decreases |remaining|, 0, |kids|
  {
    if kids == [] then multiset{}
    else KidsAnswer(kids[..|kids| - 1], prefix, remaining) + KidAnswer(kids[|kids| - 1], prefix, remaining)
  }

  /** One child's share of the answer. */
  ghost function KidAnswer(kid: Node, prefix: seq<Segment>, remaining: seq<Segment>): multiset<Entry>
    requires remaining != []
    decreases |remaining|, 0, 0
  {
    if Follows(kid, remaining[0]) then Answer(kid, prefix + [kid.level], remaining[1..]) else multiset{}
  }

  /** A list that the search of this trie may return: some order of what it collects. */
  ghost predicate AnswerList(root: Node, segs: seq<Segment>, list: seq<Hit>) {
    exists entries :: multiset(entries) == Answer(root, [], segs) && Shows(list, entries)
  }

  lemma {:induction false} ShownAnswer(root: Node, segs: seq<Segment>, list: seq<Hit>, entries: seq<Entry>)
    requires multiset(entries) == Answer(root, [], segs) && Shows(list, entries)
    ensures AnswerList(root, segs, list)
  {
  }

  /** The trie below `n`, which sits at `prefix`, holds this entry. */
  ghost predicate Holds(n: Node, prefix: seq<Segment>, e: Entry) {
    && prefix <= e.path
    && var subs := SubsAt(n, e.path[|prefix|..]);
       e.key in subs && subs[e.key] == e.tx
  }

  /** The entry is held below `n` and the rest of its path matches the remaining segments. */
  ghost predicate Wanted(n: Node, prefix: seq<Segment>, remaining: seq<Segment>, e: Entry) {
    Holds(n, prefix, e) && Match(e.path[|prefix|..], remaining)
  }

  lemma {:induction false} EntriesCount(subs: SubscriptionMap, path: seq<Segment>, e: Entry)
    ensures EntriesIn(subs, path)[e] == if e.path == path && e.key in subs && subs[e.key] == e.tx then 1 else 0
  {
    var entries := set key | key in subs :: Entry(path, key, subs[key]);
    assert e in entries <==> e.path == path && e.key in subs && subs[e.key] == e.tx;
  }

  /** Stepping into the child for the next segment of the entry's path. */
  lemma {:induction false} Descend(n: Node, prefix: seq<Segment>, e: Entry, i: nat)
    requires i < |Kids(n)| && DistinctLevels(Kids(n))
    ensures var kid := Kids(n)[i];
            Holds(kid, prefix + [kid.level], e) <==>
            Holds(n, prefix, e) && |e.path| > |prefix| && e.path[|prefix|] == kid.level
    ensures prefix + [Kids(n)[i].level] <= e.path ==>
            e.path[|prefix|..][1..] == e.path[|prefix + [Kids(n)[i].level]|..]
  {
    var kid := Kids(n)[i];
    var longer := prefix + [kid.level];
    PositionIs(Kids(n), i);
    if longer <= e.path {
      assert e.path[|prefix|] == longer[|prefix|];
      assert prefix <= e.path by {
        assert longer[..|prefix|] == prefix;
      }
      assert e.path[|prefix|..][1..] == e.path[|longer|..];
      assert e.path[|prefix|..][0] == kid.level;
    }
    if Holds(n, prefix, e) && |e.path| > |prefix| && e.path[|prefix|] == kid.level {
      assert longer == e.path[..|longer|];
    }
  }

  lemma {:induction false} AbsorbedCount(n: Node, prefix: seq<Segment>, e: Entry)
    requires Local(n)
    ensures Absorbed(n, prefix)[e] ==
            if Holds(n, prefix, e) && e.path[|prefix|..] == [HASH] then 1 else 0
  {
    var i := Position(Kids(n), HASH);
    assert n.hasMulti <==> i < |Kids(n)|;
    if i < |Kids(n)| {
      EntriesCount(Kids(n)[i].subs, prefix + [HASH], e);
      Descend(n, prefix, e, i);
      if e.path == prefix + [HASH] {
        assert e.path[|prefix|..] == [HASH];
      }
      if prefix <= e.path && e.path[|prefix|..] == [HASH] {
        assert e.path == prefix + [HASH];
      }
    }
  }

  /** A child contributes an entry iff the entry lies below it and matches, unless `#` took it already. */
  lemma {:induction false} KidCount(n: Node, i: nat, prefix: seq<Segment>, remaining: seq<Segment>, e: Entry)
    requires WellFormed(n) && i < |Kids(n)|
    requires remaining != [] && HashFree(remaining)
    ensures KidAnswer(Kids(n)[i], prefix, remaining)[e] ==
            if && Wanted(n, prefix, remaining, e)
               && |e.path| > |prefix| && e.path[|prefix|] == Kids(n)[i].level
               && e.path[|prefix|..] != [HASH]
            then 1 else 0
    decreases |remaining|, 0
  {
    var kid := Kids(n)[i];
    Descend(n, prefix, e, i);
    if Follows(kid, remaining[0]) {
      AnswerCount(kid, prefix + [kid.level], remaining[1..], e);
    }
  }

  lemma {:induction false} KidsCount(n: Node, m: nat, prefix: seq<Segment>, remaining: seq<Segment>, e: Entry)
    requires WellFormed(n) && m <= |Kids(n)|
    requires remaining != [] && HashFree(remaining)
    ensures KidsAnswer(Kids(n)[..m], prefix, remaining)[e] ==
            if && Wanted(n, prefix, remaining, e)
               && |e.path| > |prefix| && Position(Kids(n), e.path[|prefix|]) < m
               && e.path[|prefix|..] != [HASH]
            then 1 else 0
    decreases |remaining|, 1, m
  {
    if m > 0 {
      KidsCount(n, m - 1, prefix, remaining, e);
      KidCount(n, m - 1, prefix, remaining, e);
      assert Kids(n)[..m][..m - 1] == Kids(n)[..m - 1];
      PositionIs(Kids(n), m - 1);
    }
  }

  /** The search below `n` collects each matching entry held there exactly once, and nothing else. */
  lemma {:induction false} AnswerCount(n: Node, prefix: seq<Segment>, remaining: seq<Segment>, e: Entry)
    requires WellFormed(n) && HashFree(remaining)
    ensures Answer(n, prefix, remaining)[e] == if Wanted(n, prefix, remaining, e) then 1 else 0
    decreases |remaining|, 2
  {
    AbsorbedCount(n, prefix, e);
    if remaining == [] {
      EntriesCount(n.subs, prefix, e);
    } else {
      KidsCount(n, |Kids(n)|, prefix, remaining, e);
      assert Kids(n)[..|Kids(n)|] == Kids(n);
    }
  }
}
