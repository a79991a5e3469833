/**
  Runs that insert a live key again under another filter. The old trie entry stays
  behind; this is exactly when a search stops being the flat scan.
 */
module Moves {
  import opened Common
  import opened Topics
  import opened TopicProofs
  import opened Matching
  import opened Trie
  import opened TrieSearch
  import opened Placement
  import opened Runs
  import opened Deliveries

  /** Search would answer every topic with the scan of `live`, in whatever order it collects. */
  ghost predicate AnswersLike(s: State, live: LiveMap) {
    forall topic: Topic, list :: Returns(s, topic, list) ==> multiset(list) == Scan(live, topic)
  }

  /** After the run, every search is the flat scan of the live subscriptions. */
  ghost predicate Exact(ops: seq<Op>) {
    AnswersLike(Run(ops), LiveRun(ops))
  }

  lemma {:induction false} HeldIsReturned(root: Node, segs: seq<Segment>, e: Entry,
                                          entries: seq<Entry>) returns (i: nat)
    requires WellFormed(root) && HashFree(segs)
    requires multiset(entries) == Answer(root, [], segs)
    requires Holds(root, [], e) && Match(e.path, segs)
    ensures i < |entries| && entries[i] == e
  {
    AnswerCount(root, [], segs, e);
    assert e.path[0..] == e.path;
    assert e in multiset(entries);
    i :| 0 <= i < |entries| && entries[i] == e;
  }

  /** The list shows every element once and the key only with its latest sender, as a scan does. */
  lemma {:induction false} ScanKey(live: LiveMap, topic: Topic, list: seq<Hit>, key: SubscriptionKey, tx: Sender)
    requires multiset(list) == Scan(live, topic)
    ensures Distinct(list)
    ensures HitOf(key, tx) in list ==> key in live && Matches(live[key].filter, topic) && live[key].tx == tx
  {
    forall x
      ensures multiset(list)[x] <= 1
    {
      ScanMember(live, topic, x);
    }
    OnceEach(list);
    var hit := HitOf(key, tx);
    if hit in list {
      assert hit in multiset(list);
      ScanMember(live, topic, hit);
      var k :| k in live && Matches(live[k].filter, topic) && hit == HitOf(k, live[k].tx);
      assert k == key;
    }
  }

  /** A key held under two paths is shown for each of them that matches. */
  lemma {:induction false} TwoEntriesShow(root: Node, segs: seq<Segment>, e: Entry, f: Entry,
                                          entries: seq<Entry>, list: seq<Hit>)
    requires WellFormed(root) && HashFree(segs)
    requires multiset(entries) == Answer(root, [], segs) && Shows(list, entries)
    requires Holds(root, [], e) && Holds(root, [], f) && e.key == f.key && e.path != f.path
    requires Match(e.path, segs)
    ensures HitOf(e.key, e.tx) in list
    ensures e.tx == f.tx && Match(f.path, segs) ==> !Distinct(list)
  {
    var i := HeldIsReturned(root, segs, e, entries);
    assert list[i] == HitOf(e.key, e.tx);
    if e.tx == f.tx && Match(f.path, segs) {
      var j := HeldIsReturned(root, segs, f, entries);
      assert i != j && list[i] == list[j];
    }
  }

  lemma {:induction false} SomeAnswer(s: State, topic: Topic) returns (entries: seq<Entry>, list: seq<Hit>)
    ensures multiset(entries) == Answer(s.root, [], Segments(topic)) && Shows(list, entries)
    ensures Returns(s, topic, list)
  {
    entries := SomeOrder(Answer(s.root, [], Segments(topic)));
    list := seq(|entries|, n requires 0 <= n < |entries| => HitOf(entries[n].key, entries[n].tx));
  }

  /** After any run a search misses no live subscription: it returns at least the flat scan. */
  lemma {:induction false} RunNeverMisses(ops: seq<Op>, topic: Topic, list: seq<Hit>)
    requires Returns(Run(ops), topic, list)
    ensures Scan(LiveRun(ops), topic) <= multiset(list)
  {
    var live, root := LiveRun(ops), Run(ops).root;
    var entries :| multiset(entries) == Answer(root, [], Segments(topic)) && Shows(list, entries);
    RunSound(ops);
    TopicIsHashFree(topic);
    forall hit
      ensures Scan(live, topic)[hit] <= multiset(list)[hit]
    {
      ScanMember(live, topic, hit);
      if key :| key in live && Matches(live[key].filter, topic) && hit == HitOf(key, live[key].tx) {
        var i := HeldIsReturned(root, Segments(topic), LiveEntry(live, key), entries);
        assert list[i] == hit;
      }
    }
  }

  /** A pair that is not a live key under its latest filter shows for a topic that its filter matches. */
  lemma {:induction false} StaleShows(ops: seq<Op>, stale: Entry, topic: Topic, entries: seq<Entry>, list: seq<Hit>)
    requires Holds(Run(ops).root, [], stale) && Match(stale.path, Segments(topic))
    requires stale.key in LiveRun(ops) ==> stale.path != Segments(LiveRun(ops)[stale.key].filter)
    requires multiset(entries) == Answer(Run(ops).root, [], Segments(topic)) && Shows(list, entries)
    ensures multiset(list) != Scan(LiveRun(ops), topic)
  {
    var live, root := LiveRun(ops), Run(ops).root;
    RunSound(ops);
    TopicIsHashFree(topic);
    var i := HeldIsReturned(root, Segments(topic), stale, entries);
    assert list[i] == HitOf(stale.key, stale.tx);
    if multiset(list) == Scan(live, topic) {
      ScanKey(live, topic, list, stale.key, stale.tx);
      TwoEntriesShow(root, Segments(topic), stale, LiveEntry(live, stale.key), entries, list);
      assert false;
    }
  }

  lemma {:induction false} StaleAnswer(ops: seq<Op>, pin: Pin)
    requires pin in HeldRun(ops)
    requires pin.key in LiveRun(ops) ==> pin.path != Segments(LiveRun(ops)[pin.key].filter)
    ensures !Exact(ops)
  {
    var stale := Entry(pin.path, pin.key, HeldRun(ops)[pin]);
    RunTracks(ops);
    RunCarries(ops);
    assert PinnedEntry(HeldRun(ops), stale);
    assert stale.path[0..] == stale.path;
    var filter := FilterPathHasFilter(pin.path);
    var topic := SomeTopicMatches(filter);
    var entries, list := SomeAnswer(Run(ops), topic);
    StaleShows(ops, stale, topic, entries, list);
  }

  /**
    The exact condition, for every run: a search answers every topic with the flat scan
    of the live subscriptions iff the run leaves no stale pair behind.
   */
  lemma {:induction false} RunExactIff(ops: seq<Op>)
    ensures Exact(ops) <==> Tidy(ops)
  {
    if Tidy(ops) {
      forall topic: Topic, list | Returns(Run(ops), topic, list)
        ensures multiset(list) == Scan(LiveRun(ops), topic)
      {
        RunSearch(ops, topic, list);
      }
    } else {
      var pin :| pin in HeldRun(ops) &&
                 !(pin.key in PlacesIn(LiveRun(ops)) && PlacesIn(LiveRun(ops))[pin.key].path == pin.path);
      LivePath(LiveRun(ops), pin.key);
      StaleAnswer(ops, pin);
    }
  }

  /** Seen from outside and from inside, exactness is the same thing. */
  lemma {:induction false} ExactIffRepresents(ops: seq<Op>)
    ensures Exact(ops) <==> Represents(Run(ops), LiveRun(ops))
  {
    RunExactIff(ops);
    RunRepresentsIff(ops);
  }

  /**
    After any run at all, an insert makes (or keeps) every search exact iff its key is held
    under no other filter and every other pair held is a live key under its latest filter.
   */
  lemma {:induction false} InsertStaysExactIff(ops: seq<Op>, tx: Sender, key: SubscriptionKey, filter: TopicFilter)
    ensures Exact(ops + [Insert(tx, key, filter)]) <==>
            forall pin :: pin in HeldRun(ops) ==>
              if pin.key == key then pin.path == Segments(filter)
              else pin.key in LiveRun(ops) && pin.path == Segments(LiveRun(ops)[pin.key].filter)
  {
    RunExactIff(ops + [Insert(tx, key, filter)]);
    InsertTidyIff(ops, tx, key, filter);
  }

  /** An insert that breaks the rule leaves its old pair behind. */
  lemma {:induction false} BreakingIsUntidy(ops: seq<Op>, op: Op)
    requires !KeepsFilter(Run(ops).index, op)
    ensures !Tidy(ops + [op])
  {
    var live := LiveRun(ops);
    RunTracks(ops);
    LivePath(live, op.key);
    if Segments(live[op.key].filter) == Segments(op.filter) {
      SegmentsInjective(live[op.key].filter, op.filter);
    }
    InsertTidyIff(ops, op.tx, op.key, op.filter);
    assert Pin(op.key, Segments(live[op.key].filter)) in HeldRun(ops);
  }

  lemma {:induction false} DisciplinedStep(ops: seq<Op>, op: Op)
    requires Disciplined(ops)
    ensures Disciplined(ops + [op]) <==> Exact(ops + [op])
  {
    RunSnoc(ops, op);
    RunExactIff(ops + [op]);
    if KeepsFilter(Run(ops).index, op) {
      DisciplinedTidy(ops + [op]);
    } else {
      BreakingIsUntidy(ops, op);
    }
  }

  lemma {:induction false} FreshIsExact()
    ensures AllPrefixes(Exact, [])
  {
    var none: seq<Op> := [];
    RunExactIff(none);
    assert Tidy(none) && none[..0] == none;
  }

  /** Search is exact at every moment of a run iff every insert of the run finds its key fresh or keeps its filter. */
  lemma {:induction false} DisciplinedIff(ops: seq<Op>)
    ensures Disciplined(ops) <==> AllPrefixes(Exact, ops)
  {
    if ops == [] {
      FreshIsExact();
    } else {
      var front, op := ops[..|ops| - 1], ops[|ops| - 1];
      assert front + [op] == ops;
      DisciplinedIff(front);
      AllPrefixesSnoc(Exact, front, op);
      RunSnoc(front, op);
      if Disciplined(front) {
        DisciplinedStep(front, op);
      }
    }
  }

  /** Where search is exact, the next insert keeps it so iff its key is not indexed or indexed with this filter. */
  lemma {:induction false} NextInsertIff(ops: seq<Op>, tx: Sender, key: SubscriptionKey, filter: TopicFilter)
    requires Exact(ops)
    ensures Exact(ops + [Insert(tx, key, filter)]) <==>
            key !in Run(ops).index || Run(ops).index[key] == filter
  {
    var op := Insert(tx, key, filter);
    RunExactIff(ops);
    RunExactIff(ops + [op]);
    if KeepsFilter(Run(ops).index, op) {
      KeepingIsTidy(ops, tx, key, filter);
    } else {
      BreakingIsUntidy(ops, op);
    }
  }

  lemma {:induction false} LastWriteWins<K, V>(k: K, v: V, w: V)
    ensures map[][k := v][k := w] == map[k := w]
  {
  }

  lemma {:induction false} RunTwo(i: Op, j: Op)
    ensures Run([i, j]) == Step(Step(FRESH, i), j)
  {
    RunSnoc([], i);
    RunSnoc([i], j);
    assert [] + [i] == [i] && [i] + [j] == [i, j];
  }

  lemma {:induction false} MovedKeyHeld(key: SubscriptionKey, tx: Sender, a: seq<Segment>, b: seq<Segment>)
    requires a != b
    ensures Holds(Planted(Planted(NewNode([]), a, key, tx), b, key, tx), [], Entry(a, key, tx))
  {
    PlantedHolds(NewNode([]), a, key, tx, Entry(a, key, tx));
    PlantedHolds(Planted(NewNode([]), a, key, tx), b, key, tx, Entry(a, key, tx));
  }

  /** A key moved from filter `a` to filter `b` is still found by every topic that `a` matches. */
  lemma {:induction false} MovedKeyIsFound(key: SubscriptionKey, tx: Sender, a: TopicFilter, b: TopicFilter,
                                           topic: Topic)
    requires a != b && Matches(a, topic)
    ensures var s := Run([Insert(tx, key, a), Insert(tx, key, b)]);
            && s.index == map[key := b]
            && Answer(s.root, [], Segments(topic))[Entry(Segments(a), key, tx)] == 1
  {
    if Segments(a) == Segments(b) {
      SegmentsInjective(a, b);
    }
    RunTwo(Insert(tx, key, a), Insert(tx, key, b));
    LastWriteWins(key, a, b);
    MovedKeyHeld(key, tx, Segments(a), Segments(b));
    RunSearchExact([Insert(tx, key, a), Insert(tx, key, b)], topic, Entry(Segments(a), key, tx));
  }

  /** The smallest case: moved from `a` to `b`, and topic `a`, which `b` does not match. */
  lemma {:induction false} MovedFromAToB(key: SubscriptionKey, tx: Sender)
    ensures var s := Run([Insert(tx, key, [97]), Insert(tx, key, [98])]);
            && s.index == map[key := [98]] && !Matches([98], [97])
            && Answer(s.root, [], Segments([97]))[Entry(Segments([97]), key, tx)] == 1
  {
    LiteralFilterMatchesItself([97], [97]);
    LiteralFilterMatchesItself([98], [97]);
    MovedKeyIsFound(key, tx, [97], [98], [97]);
  }

  lemma {:induction false} TwoPins(key: SubscriptionKey, tx: Sender, a: seq<Segment>, b: seq<Segment>)
    requires a != b
    ensures var one: map<Pin, Sender> := map[][Pin(key, a) := tx];
            one[Pin(key, b) := tx] - {Pin(key, b)} == one && one[Pin(key, a) := tx] == one
  {
  }

  function MovedAndDeleted(key: SubscriptionKey, tx: Sender, a: TopicFilter, b: TopicFilter): seq<Op> {
    [Insert(tx, key, a)] + [Insert(tx, key, b)] + [Delete(key)]
  }

  lemma {:induction false} FirstInsert(key: SubscriptionKey, tx: Sender, a: TopicFilter)
    ensures var i := Insert(tx, key, a);
            LiveRun([i]) == map[][key := Live(a, tx)] && HeldRun([i]) == map[][Pin(key, Segments(a)) := tx]
  {
    assert [] + [Insert(tx, key, a)] == [Insert(tx, key, a)];
    RunSnoc([], Insert(tx, key, a));
  }

  lemma {:induction false} MovedAndDeletedLeaves(key: SubscriptionKey, tx: Sender, a: TopicFilter, b: TopicFilter)
    requires a != b
    ensures var ops := MovedAndDeleted(key, tx, a, b);
            HeldRun(ops) == map[][Pin(key, Segments(a)) := tx] && key !in LiveRun(ops)
  {
    var i, j := Insert(tx, key, a), Insert(tx, key, b);
    if Segments(a) == Segments(b) {
      SegmentsInjective(a, b);
    }
    FirstInsert(key, tx, a);
    RunSnoc([i], j);
    RunSnoc([i] + [j], Delete(key));
    TwoPins(key, tx, Segments(a), Segments(b));
  }

  lemma {:induction false} MovedIsNotDisciplined(key: SubscriptionKey, tx: Sender, a: TopicFilter, b: TopicFilter)
    requires a != b
    ensures !Disciplined(MovedAndDeleted(key, tx, a, b))
  {
    var i, j := Insert(tx, key, a), Insert(tx, key, b);
    FirstInsert(key, tx, a);
    RunTracks([i]);
    LivePath(LiveRun([i]), key);
    RunSnoc([i], j);
    RunSnoc([i] + [j], Delete(key));
  }

  /**
    A key moved and then deleted is no longer indexed, yet search is not exact; coming
    back under the first filter makes it exact again, though the run broke the rule.
   */
  lemma {:induction false} MovedAndBack(key: SubscriptionKey, tx: Sender, a: TopicFilter, b: TopicFilter)
    requires a != b
    ensures var ops := MovedAndDeleted(key, tx, a, b);
            && key !in Run(ops).index && !Exact(ops)
            && Exact(ops + [Insert(tx, key, a)]) && !Disciplined(ops + [Insert(tx, key, a)])
  {
    var ops := MovedAndDeleted(key, tx, a, b);
    MovedAndDeletedLeaves(key, tx, a, b);
    MovedIsNotDisciplined(key, tx, a, b);
    RunTracks(ops);
    LivePath(LiveRun(ops), key);
    StaleAnswer(ops, Pin(key, Segments(a)));
    InsertStaysExactIff(ops, tx, key, a);
    RunSnoc(ops, Insert(tx, key, a));
  }
}
