/**
  What a search answers, seen from outside: exactly the flat scan of the live
  subscriptions after every run that leaves no stale entry behind, and no less than
  that scan after every run.
 */
module Deliveries {
  import opened Common
  import opened Topics
  import opened Matching
  import opened Trie
  import opened TrieShape
  import opened TrieSearch
  import opened TrieSize
  import opened Placement
  import opened Runs

  // ---- Lists, their elements, and sets ----

  ghost predicate Distinct<T(!new)>(s: seq<T>) {
    forall i, j :: 0 <= i < j < |s| ==> s[i] != s[j]
  }

  lemma {:induction false} SplitAt<T>(s: seq<T>, i: nat)
    requires i < |s|
    ensures multiset(s) == multiset(s[..i]) + multiset{s[i]} + multiset(s[i + 1..])
  {
    assert s == s[..i] + [s[i]] + s[i + 1..];
  }

  lemma {:induction false} OnceEach<T(!new)>(s: seq<T>)
    requires forall x :: multiset(s)[x] <= 1
    ensures Distinct(s)
  {
    forall i, j | 0 <= i < j < |s|
      ensures s[i] != s[j]
    {
      SplitAt(s, i);
      assert s[j] == s[i + 1..][j - i - 1];
      assert s[j] in multiset(s[i + 1..]);
      assert multiset(s)[s[i]] <= 1;
    }
  }

  lemma {:induction false} DistinctMultiset<T(!new)>(s: seq<T>)
    requires Distinct(s)
    ensures multiset(s) == multiset(Elements(s))
  {
    if s != [] {
      var front, last := s[..|s| - 1], s[|s| - 1];
      DistinctMultiset(front);
      assert s == front + [last];
      assert Elements(s) == Elements(front) + {last};
      assert last !in front;
    }
  }

  lemma {:induction false} SomeOrder<T>(m: multiset<T>) returns (s: seq<T>)
    ensures multiset(s) == m
    decreases |m|
  {
    if m == multiset{} {
      s := [];
    } else {
      var x :| x in m;
      var rest := SomeOrder(m - multiset{x});
      s := rest + [x];
    }
  }

  // ---- Search against a map of places ----

  /** Scan every key; keep those whose path matches. */
  ghost function ScanPlaces(places: map<SubscriptionKey, Place>, segs: seq<Segment>): set<Hit> {
    set key | key in places && Match(places[key].path, segs) :: HitOf(key, places[key].tx)
  }

  lemma {:induction false} SearchIsScan(root: Node, places: map<SubscriptionKey, Place>, segs: seq<Segment>,
                                        entries: seq<Entry>, list: seq<Hit>)
    requires WellFormed(root) && HashFree(segs) && HoldsExactly(root, places)
    requires multiset(entries) == Answer(root, [], segs) && Shows(list, entries)
    ensures multiset(list) == multiset(ScanPlaces(places, segs))
  {
    forall e: Entry
      ensures multiset(entries)[e] == if PlacedEntry(places, e) && Match(e.path, segs) then 1 else 0
    {
      AnswerCount(root, [], segs, e);
      assert e.path[0..] == e.path;
    }
    OnceEach(entries);
    assert forall e: Entry :: e in entries <==> e in multiset(entries);
    assert forall i :: 0 <= i < |entries| ==> entries[i] in multiset(entries);
    HitsDistinct(places, entries, list);
    DistinctMultiset(list);
    HitsAreScan(places, segs, entries, list);
  }

  lemma {:induction false} HitsDistinct(places: map<SubscriptionKey, Place>, entries: seq<Entry>, list: seq<Hit>)
    requires Distinct(entries) && Shows(list, entries)
    requires forall i :: 0 <= i < |entries| ==> PlacedEntry(places, entries[i])
    ensures Distinct(list)
  {
    forall i, j | 0 <= i < j < |list|
      ensures list[i] != list[j]
    {
      assert entries[i] != entries[j];
      assert PlacedEntry(places, entries[i]) && PlacedEntry(places, entries[j]);
      assert entries[i].key != entries[j].key;
    }
  }

  lemma {:induction false} HitsAreScan(places: map<SubscriptionKey, Place>, segs: seq<Segment>,
                                       entries: seq<Entry>, list: seq<Hit>)
    requires Shows(list, entries)
    requires forall e: Entry :: e in entries <==> PlacedEntry(places, e) && Match(e.path, segs)
    ensures Elements(list) == ScanPlaces(places, segs)
  {
    forall x | x in list
      ensures x in ScanPlaces(places, segs)
    {
      var i :| 0 <= i < |list| && list[i] == x;
      assert entries[i] in entries;
    }
    forall x | x in ScanPlaces(places, segs)
      ensures x in list
    {
      var key :| key in places && Match(places[key].path, segs) && x == HitOf(key, places[key].tx);
      var e := Entry(places[key].path, key, places[key].tx);
      assert e in entries;
      var i :| 0 <= i < |entries| && entries[i] == e;
      assert list[i] == x;
    }
  }

  // ---- Search against the live subscriptions ----

  /** The answer the router is for: scan every live subscription and keep the matching ones. */
  ghost function Scan(live: LiveMap, topic: Topic): multiset<Hit> {
    multiset(set key | key in live && Matches(live[key].filter, topic) ::
               (key.clientId, Subscription(key.subscriptionId, live[key].tx)))
  }

  lemma {:induction false} ScanMember(live: LiveMap, topic: Topic, x: Hit)
    ensures x in Scan(live, topic) <==>
            exists key :: key in live && Matches(live[key].filter, topic) && x == HitOf(key, live[key].tx)
    ensures Scan(live, topic)[x] <= 1
  {
  }

  /** A list that a search for this topic may return in this state. */
  ghost predicate Returns(s: State, topic: Topic, list: seq<Hit>) {
    AnswerList(s.root, Segments(topic), list)
  }

  lemma {:induction false} ScanInPlaces(live: LiveMap, topic: Topic)
    ensures Scan(live, topic) == multiset(ScanPlaces(PlacesIn(live), Segments(topic)))
  {
    forall key
      ensures key in live <==> key in PlacesIn(live)
      ensures key in live ==> PlacesIn(live)[key] == Place(Segments(live[key].filter), live[key].tx)
    {
      if key in live {
        PlacesInStep(live, key, live[key]);
      }
    }
  }

  lemma {:induction false} RepresentedSearch(s: State, live: LiveMap, topic: Topic, list: seq<Hit>)
    requires Sound(s) && Represents(s, live) && Returns(s, topic, list)
    ensures multiset(list) == Scan(live, topic)
  {
    var entries :| multiset(entries) == Answer(s.root, [], Segments(topic)) && Shows(list, entries);
    TopicIsHashFree(topic);
    SearchIsScan(s.root, PlacesIn(live), Segments(topic), entries, list);
    ScanInPlaces(live, topic);
  }

  /**
    The router's promise: after every tidy run, a search returns exactly the live
    subscriptions whose filter matches, each once and with its latest sender.
   */
  lemma {:induction false} RunSearch(ops: seq<Op>, topic: Topic, list: seq<Hit>)
    requires Tidy(ops) && Returns(Run(ops), topic, list)
    ensures multiset(list) == Scan(LiveRun(ops), topic)
  {
    RunCarries(ops);
    RunRepresentsIff(ops);
    RepresentedSearch(Run(ops), LiveRun(ops), topic, list);
  }

  /** The same, field by field: who is told, under which subscription id, and through which sender. */
  lemma {:induction false} RunSearchMember(ops: seq<Op>, topic: Topic, list: seq<Hit>, x: Hit)
    requires Tidy(ops) && Returns(Run(ops), topic, list)
    ensures x in list <==>
            exists key :: key in LiveRun(ops) && Matches(LiveRun(ops)[key].filter, topic)
              && x.0 == key.clientId && x.1.subscriptionId == key.subscriptionId && x.1.tx == LiveRun(ops)[key].tx
  {
    RunSearch(ops, topic, list);
    assert x in list <==> x in multiset(list);
    ScanMember(LiveRun(ops), topic, x);
  }

  /** The answer depends on the live subscriptions only, not on the history that led to them. */
  lemma {:induction false} SameLiveSameAnswer(ops: seq<Op>, ops': seq<Op>, topic: Topic, list: seq<Hit>,
                                              list': seq<Hit>)
    requires Tidy(ops) && Tidy(ops') && LiveRun(ops) == LiveRun(ops')
    requires Returns(Run(ops), topic, list) && Returns(Run(ops'), topic, list')
    ensures multiset(list) == multiset(list')
  {
    RunSearch(ops, topic, list);
    RunSearch(ops', topic, list');
  }

  /** And so does the trie, but for the order of siblings: same nodes, same subscriptions at each. */
  lemma {:induction false} SameLiveSameTrie(ops: seq<Op>, ops': seq<Op>)
    requires Tidy(ops) && Tidy(ops') && LiveRun(ops) == LiveRun(ops')
    ensures forall q :: SubsAt(Run(ops).root, q) == SubsAt(Run(ops').root, q)
    ensures Paths(Run(ops).root) == Paths(Run(ops').root)
    ensures Size(Run(ops).root) == Size(Run(ops').root)
  {
    var root, root' := Run(ops).root, Run(ops').root;
    RunRepresentsIff(ops);
    RunRepresentsIff(ops');
    forall q
      ensures SubsAt(root, q) == SubsAt(root', q)
    {
      SameEntriesSameSubs(root, root', PlacesIn(LiveRun(ops)), q);
    }
    RunCarries(ops);
    RunCarries(ops');
    SameSubsSameNodes(root, root');
  }

  lemma {:induction false} SameSubsSameNodes(n: Node, m: Node)
    requires WellFormed(n) && WellFormed(m) && forall q :: SubsAt(n, q) == SubsAt(m, q)
    ensures Paths(n) == Paths(m) && Size(n) == Size(m)
  {
    PathsFromSubs(n, m);
    PathsFromSubs(m, n);
    WellFormedUnambiguous(n);
    WellFormedUnambiguous(m);
    PathsSize(n);
    PathsSize(m);
  }

  lemma {:induction false} SameEntriesSameSubs(root: Node, root': Node, places: map<SubscriptionKey, Place>,
                                               q: seq<Segment>)
    requires HoldsExactly(root, places) && HoldsExactly(root', places)
    ensures SubsAt(root, q) == SubsAt(root', q)
  {
    var subs, subs' := SubsAt(root, q), SubsAt(root', q);
    assert q[0..] == q;
    assert forall key :: key in subs ==> Holds(root, [], Entry(q, key, subs[key]));
    assert forall key :: key in subs' ==> Holds(root', [], Entry(q, key, subs'[key]));
    assert forall key :: key in subs ==> Holds(root', [], Entry(q, key, subs[key]));
    assert forall key :: key in subs' ==> Holds(root, [], Entry(q, key, subs'[key]));
  }

  /** A live filter without wildcards is delivered to by the topic with the same bytes and no other. */
  lemma {:induction false} LiteralDelivery(ops: seq<Op>, key: SubscriptionKey, topic: Topic, list: seq<Hit>)
    requires Tidy(ops) && Returns(Run(ops), topic, list)
    requires key in LiveRun(ops) && 43 !in LiveRun(ops)[key].filter && 35 !in LiveRun(ops)[key].filter
    ensures (key.clientId, Subscription(key.subscriptionId, LiveRun(ops)[key].tx)) in list <==>
            topic == LiveRun(ops)[key].filter
  {
    var live := LiveRun(ops);
    RunSearch(ops, topic, list);
    LiteralFilterMatchesItself(live[key].filter, topic);
    var hit := HitOf(key, live[key].tx);
    assert hit in list <==> hit in multiset(list);
    ScanMember(live, topic, hit);
    if k :| k in live && Matches(live[k].filter, topic) && hit == HitOf(k, live[k].tx) {
      assert k == key;
    }
  }

  // ---- Growing and shrinking ----

  lemma {:induction false} PlantUprootIff(root: Node, path: seq<Segment>, key: SubscriptionKey, tx: Sender)
    requires WellFormed(root) && HashLast(path)
    ensures Uprooted(Planted(root, path, key, tx), path, key) == root <==> key !in SubsAt(root, path)
  {
    if key !in SubsAt(root, path) {
      UprootPlanted(root, path, key, tx);
    } else {
      PlantedWellFormed(root, path, key, tx);
      WellFormedUnambiguous(Planted(root, path, key, tx));
      UprootedSubs(Planted(root, path, key, tx), path, key, path);
    }
  }

  /** Insert then delete of a key restores the state iff it was not indexed and not already held under this filter. */
  lemma {:induction false} InsertThenDelete(s: State, tx: Sender, key: SubscriptionKey, filter: TopicFilter)
    requires Sound(s)
    ensures Step(Step(s, Insert(tx, key, filter)), Delete(key)) == s <==>
            key !in s.index && key !in SubsAt(s.root, Segments(filter))
  {
    var grown := Step(s, Insert(tx, key, filter));
    StepSound(s, Insert(tx, key, filter));
    DeleteSound(grown, key);
    FilterIsHashLast(filter);
    PlantUprootIff(s.root, Segments(filter), key, tx);
    UndoneIndex(s.index, key, filter);
  }

  lemma {:induction false} UndoneIndex<K, V>(m: map<K, V>, k: K, v: V)
    ensures m[k := v] - {k} == m <==> k !in m
  {
  }

  lemma {:induction false} NotLiveIsNowhere(s: State, live: LiveMap, key: SubscriptionKey, path: seq<Segment>)
    requires Represents(s, live) && key !in live
    ensures key !in s.index && key !in SubsAt(s.root, path)
  {
    LivePath(live, key);
    if key in SubsAt(s.root, path) {
      assert path[0..] == path;
      assert Holds(s.root, [], Entry(path, key, SubsAt(s.root, path)[key]));
    }
  }

  /** After a tidy run a key that is not live is nowhere, so the round trip is exact. */
  lemma {:induction false} FreshKeyRoundTrip(ops: seq<Op>, tx: Sender, key: SubscriptionKey, filter: TopicFilter)
    requires Tidy(ops) && key !in LiveRun(ops)
    ensures Run(ops + [Insert(tx, key, filter)] + [Delete(key)]) == Run(ops)
  {
    RunCarries(ops);
    RunRepresentsIff(ops);
    NotLiveIsNowhere(Run(ops), LiveRun(ops), key, Segments(filter));
    InsertThenDelete(Run(ops), tx, key, filter);
    RunSnoc(ops, Insert(tx, key, filter));
    RunSnoc(ops + [Insert(tx, key, filter)], Delete(key));
  }

  /** A run ends in the fresh router iff it leaves no pair of key and filter in the trie. */
  lemma {:induction false} FreshIff(ops: seq<Op>)
    ensures Run(ops) == FRESH <==> HeldRun(ops) == map[]
  {
    var s, held, live := Run(ops), HeldRun(ops), LiveRun(ops);
    RunCarries(ops);
    RunTracks(ops);
    if held == map[] {
      forall q
        ensures SubsAt(s.root, q) == map[]
      {
        UnpinnedIsEmpty(s.root, held, q);
      }
      HoldsNothing(s.root);
      if key :| key in live {
        LivePath(live, key);
        assert false;
      }
    }
    if s == FRESH {
      forall pin
        ensures pin !in held
      {
        if pin in held {
          assert PinnedEntry(held, Entry(pin.path, pin.key, held[pin]));
          FreshHoldsNothing(Entry(pin.path, pin.key, held[pin]));
        }
      }
    }
  }

  lemma {:induction false} FreshHoldsNothing(e: Entry)
    ensures !Holds(FRESH.root, [], e)
  {
    assert SubsAt(NewNode([]), e.path[0..]) == map[];
  }

  lemma {:induction false} UnpinnedIsEmpty(root: Node, pins: map<Pin, Sender>, q: seq<Segment>)
    requires HoldsPinned(root, pins) && pins == map[]
    ensures SubsAt(root, q) == map[]
  {
    if key :| key in SubsAt(root, q) {
      assert q[0..] == q;
      assert Holds(root, [], Entry(q, key, SubsAt(root, q)[key]));
      assert false;
    }
  }

  /** A tidy run that leaves nothing live leaves the fresh router. */
  lemma {:induction false} NothingLiveIsFresh(ops: seq<Op>)
    requires Tidy(ops) && LiveRun(ops) == map[]
    ensures Run(ops) == FRESH
  {
    AllPlacedCount(HeldRun(ops), PlacesIn(LiveRun(ops)));
    FreshIff(ops);
  }

  /** The run followed by a delete of each of these keys. */
  function Deleting(ops: seq<Op>, keys: seq<SubscriptionKey>): seq<Op> {
    if keys == [] then ops else Deleting(ops, keys[..|keys| - 1]) + [Delete(keys[|keys| - 1])]
  }

  lemma {:induction false} DeletingLeaves(ops: seq<Op>, keys: seq<SubscriptionKey>)
    requires Tidy(ops)
    ensures Tidy(Deleting(ops, keys))
    ensures LiveRun(Deleting(ops, keys)) == LiveRun(ops) - Elements(keys)
  {
    if keys != [] {
      DeletingLeaves(ops, keys[..|keys| - 1]);
      RunSnoc(Deleting(ops, keys[..|keys| - 1]), Delete(keys[|keys| - 1]));
      DeleteTidy(Deleting(ops, keys[..|keys| - 1]), keys[|keys| - 1]);
      MapMinusLast(LiveRun(ops), keys);
    }
  }

  /** Deleting every live key, in any order and with any others, gives back the fresh router. */
  lemma {:induction false} DeleteAll(ops: seq<Op>, keys: seq<SubscriptionKey>)
    requires Tidy(ops) && forall key :: key in LiveRun(ops) ==> key in keys
    ensures Run(Deleting(ops, keys)) == FRESH
  {
    DeletingLeaves(ops, keys);
    NothingLiveIsFresh(Deleting(ops, keys));
  }

  /**
    Besides the root, the trie has at most eight nodes per pair of key and filter that
    the run leaves in it, and so at most eight per live subscription after a tidy run.
   */
  lemma {:induction false} RunSize(ops: seq<Op>)
    ensures Size(Run(ops).root) - 1 <= 8 * |HeldRun(ops)|
    ensures Tidy(ops) ==> |HeldRun(ops)| <= |LiveRun(ops)|
    ensures Tidy(ops) ==> Size(Run(ops).root) - 1 <= 8 * |LiveRun(ops)|
  {
    RunCarries(ops);
    RunTracks(ops);
    SizeOfPinned(Run(ops).root, PathsIn(Run(ops).index), HeldRun(ops));
    if Tidy(ops) {
      AllPlacedCount(HeldRun(ops), PlacesIn(LiveRun(ops)));
      MapValuesCount(LiveRun(ops), (l: Live) => Place(Segments(l.filter), l.tx));
    }
  }
}
