/**
  The router as a state machine: its two structures, one step per insert or
  delete, and what holds after every run from the fresh router.
 */
module Runs {
  import opened Common
  import opened Topics
  import opened TopicProofs
  import opened Matching
  import opened Trie
  import opened TrieShape
  import opened TrieSearch
  import opened TrieSize
  import opened Placement

  datatype Op =
    | Insert(tx: Sender, key: SubscriptionKey, filter: TopicFilter)
    | Delete(key: SubscriptionKey)

  /** `Router`: the trie and the flat index from key to filter. */
  datatype State = State(root: Node, index: map<SubscriptionKey, TopicFilter>)

  const FRESH := State(NewNode([]), map[])

  function Step(s: State, op: Op): State {
    match op
    case Insert(tx, key, filter) =>
      State(Planted(s.root, Segments(filter), key, tx), s.index[key := filter])
    case Delete(key) =>
      if key !in s.index || !Reaches(s.root, Segments(s.index[key])) then s
      else State(Uprooted(s.root, Segments(s.index[key]), key), s.index - {key})
  }

  function Run(ops: seq<Op>): State {
    if ops == [] then FRESH else Step(Run(ops[..|ops| - 1]), ops[|ops| - 1])
  }

  // ---- Every run ----

  function PathsIn(index: map<SubscriptionKey, TopicFilter>): map<SubscriptionKey, seq<Segment>> {
    MapValues(index, (f: TopicFilter) => Segments(f))
  }

  /** What any run keeps, also one that inserts a live key again under another filter. */
  ghost predicate Sound(s: State) {
    Carries(s.root, PathsIn(s.index))
  }

  lemma {:induction false} FilterHasFilterPath(f: TopicFilter)
    ensures FilterPath(Segments(f)) && HashLast(Segments(f))
  {
    SegmentsOfAccepted(f);
    FilterIsHashLast(f);
  }

  lemma {:induction false} FilterPathHasFilter(path: seq<Segment>) returns (f: TopicFilter)
    requires FilterPath(path)
    ensures Segments(f) == path
  {
    var raw := Join(path);
    assert FilterGrammar(raw);
    FilterNewIff(raw);
    f := raw;
    SegmentsOfAccepted(f);
    SplitJoin(path);
  }

  lemma {:induction false} RunCarries(ops: seq<Op>)
    ensures Sound(Run(ops))
  {
    if ops == [] {
      assert forall q :: SubsAt(NewNode([]), q) == map[];
    } else {
      var s := Run(ops[..|ops| - 1]);
      RunCarries(ops[..|ops| - 1]);
      StepSound(s, ops[|ops| - 1]);
    }
  }

  lemma {:induction false} PathsInStep(index: map<SubscriptionKey, TopicFilter>, key: SubscriptionKey,
                                       filter: TopicFilter)
    ensures PathsIn(index[key := filter]) == PathsIn(index)[key := Segments(filter)]
    ensures PathsIn(index - {key}) == PathsIn(index) - {key}
    ensures key in index ==> key in PathsIn(index) && PathsIn(index)[key] == Segments(index[key])
  {
    MapValuesStep(index, (f: TopicFilter) => Segments(f), key, filter);
  }

  lemma {:induction false} StepSound(s: State, op: Op)
    requires Sound(s)
    ensures Sound(Step(s, op))
  {
    match op
    case Insert(tx, key, filter) =>
      FilterHasFilterPath(filter);
      PathsInStep(s.index, key, filter);
      PlantedCarries(s.root, PathsIn(s.index), Segments(filter), key, tx);
    case Delete(key) =>
      if key in s.index {
        DeleteSound(s, key);
      }
  }

  lemma {:induction false} DeleteSound(s: State, key: SubscriptionKey)
    requires Sound(s) && key in s.index
    ensures Reaches(s.root, Segments(s.index[key]))
    ensures Sound(State(Uprooted(s.root, Segments(s.index[key]), key), s.index - {key}))
  {
    PathsInStep(s.index, key, s.index[key]);
    HeldReaches(s.root, PathsIn(s.index)[key]);
    UprootedCarries(s.root, PathsIn(s.index), key);
  }

  /** The early returns of delete are unreachable: after any run an indexed filter has its node. */
  lemma {:induction false} IndexedIsReached(ops: seq<Op>, key: SubscriptionKey)
    requires key in Run(ops).index
    ensures Reaches(Run(ops).root, Segments(Run(ops).index[key]))
  {
    RunCarries(ops);
    DeleteSound(Run(ops), key);
  }

  lemma {:induction false} SearchExact(s: State, topic: Topic, e: Entry)
    requires Sound(s)
    ensures Answer(s.root, [], Segments(topic))[e] ==
            if Holds(s.root, [], e) && Match(e.path, Segments(topic)) then 1 else 0
  {
    TopicIsHashFree(topic);
    AnswerCount(s.root, [], Segments(topic), e);
    assert e.path[0..] == e.path;
  }

  /** After every run, search collects the matching entries the trie holds, each once. */
  lemma {:induction false} RunSearchExact(ops: seq<Op>, topic: Topic, e: Entry)
    ensures Answer(Run(ops).root, [], Segments(topic))[e] ==
            if Holds(Run(ops).root, [], e) && Match(e.path, Segments(topic)) then 1 else 0
  {
    RunCarries(ops);
    SearchExact(Run(ops), topic, e);
  }

  ghost predicate HeldFilter(root: Node, f: TopicFilter) {
    SubsAt(root, Segments(f)) != map[]
  }

  /** After every run, the nodes are exactly the prefixes of the filters the trie still holds. */
  lemma {:induction false} RunNodes(ops: seq<Op>, p: seq<Segment>)
    ensures p in Paths(Run(ops).root) <==>
            p == [] || exists f: TopicFilter :: HeldFilter(Run(ops).root, f) && p <= Segments(f)
    ensures |Paths(Run(ops).root)| == Size(Run(ops).root)
  {
    var root := Run(ops).root;
    RunCarries(ops);
    WellFormedUnambiguous(root);
    PathsSize(root);
    if p in Paths(root) && p != [] {
      PathsReach(root, p);
      var q := ReachedHolds(root, p);
      var f := FilterPathHasFilter(q);
      assert HeldFilter(root, f);
    }
    if f: TopicFilter :| HeldFilter(root, f) && p <= Segments(f) {
      HeldReaches(root, Segments(f));
      ReachesPrefix(root, p, Segments(f));
      ReachedIsPath(root, p);
    }
  }

  // ---- The live subscriptions ----

  datatype Live = Live(filter: TopicFilter, tx: Sender)

  type LiveMap = map<SubscriptionKey, Live>

  /** The reference: just remember, per key, the latest filter and sender. */
  function LiveStep(live: LiveMap, op: Op): LiveMap {
    match op
    case Insert(tx, key, filter) => live[key := Live(filter, tx)]
    case Delete(key) => live - {key}
  }

  function LiveRun(ops: seq<Op>): LiveMap {
    if ops == [] then map[] else LiveStep(LiveRun(ops[..|ops| - 1]), ops[|ops| - 1])
  }

  function FiltersIn(live: LiveMap): map<SubscriptionKey, TopicFilter> {
    MapValues(live, (l: Live) => l.filter)
  }

  function PlacesIn(live: LiveMap): map<SubscriptionKey, Place> {
    MapValues(live, (l: Live) => Place(Segments(l.filter), l.tx))
  }

  /** The index and the trie both say what the live map says. */
  ghost predicate Represents(s: State, live: LiveMap) {
    s.index == FiltersIn(live) && HoldsExactly(s.root, PlacesIn(live))
  }

  lemma {:induction false} PlacesInStep(live: LiveMap, key: SubscriptionKey, now: Live)
    ensures PlacesIn(live[key := now]) == PlacesIn(live)[key := Place(Segments(now.filter), now.tx)]
    ensures PlacesIn(live - {key}) == PlacesIn(live) - {key}
    ensures key in live ==> key in PlacesIn(live)
    ensures key in live ==> PlacesIn(live)[key] == Place(Segments(live[key].filter), live[key].tx)
    ensures FiltersIn(live[key := now]) == FiltersIn(live)[key := now.filter]
    ensures FiltersIn(live - {key}) == FiltersIn(live) - {key}
    ensures key in live ==> key in FiltersIn(live) && FiltersIn(live)[key] == live[key].filter
  {
    MapValuesStep(live, (l: Live) => Place(Segments(l.filter), l.tx), key, now);
    MapValuesStep(live, (l: Live) => l.filter, key, now);
  }

  // ---- Every pair of key and filter that a run leaves in the trie ----

  /**
    The reference for arbitrary runs. An insert remembers the pair of key and filter; a
    delete forgets only the pair under which the key is live. So a pair that an
    insert of the same key under another filter moved away from stays.
   */
  function HeldStep(held: map<Pin, Sender>, live: LiveMap, op: Op): map<Pin, Sender> {
    match op
    case Insert(tx, key, filter) => held[Pin(key, Segments(filter)) := tx]
    case Delete(key) => if key in live then held - {Pin(key, Segments(live[key].filter))} else held
  }

  function HeldRun(ops: seq<Op>): map<Pin, Sender> {
    if ops == [] then map[]
    else HeldStep(HeldRun(ops[..|ops| - 1]), LiveRun(ops[..|ops| - 1]), ops[|ops| - 1])
  }

  /** Index and trie against the two reference maps. */
  ghost predicate Tracks(s: State, live: LiveMap, held: map<Pin, Sender>) {
    s.index == FiltersIn(live) && HoldsPinned(s.root, held) && PinsPlaces(held, PlacesIn(live))
  }

  lemma {:induction false} StepTracks(s: State, live: LiveMap, held: map<Pin, Sender>, op: Op)
    requires Sound(s) && Tracks(s, live, held)
    ensures Tracks(Step(s, op), LiveStep(live, op), HeldStep(held, live, op))
  {
    match op
    case Insert(tx, key, filter) =>
      PlacesInStep(live, key, Live(filter, tx));
      PlantedPinned(s.root, held, Segments(filter), key, tx);
      PinsAfterInsert(held, PlacesIn(live), Segments(filter), key, tx);
    case Delete(key) =>
      if key in live {
        PlacesInStep(live, key, live[key]);
        DeleteSound(s, key);
        UprootedPinned(s.root, held, Segments(live[key].filter), key);
        PinsAfterDelete(held, PlacesIn(live), key);
      } else {
        MinusAbsent(live, key);
        LivePath(live, key);
      }
  }

  lemma {:induction false} RunTracks(ops: seq<Op>)
    ensures Tracks(Run(ops), LiveRun(ops), HeldRun(ops))
  {
    if ops == [] {
      assert forall q :: SubsAt(NewNode([]), q) == map[];
    } else {
      var front := ops[..|ops| - 1];
      RunCarries(front);
      RunTracks(front);
      StepTracks(Run(front), LiveRun(front), HeldRun(front), ops[|ops| - 1]);
    }
  }

  lemma {:induction false} LivePath(live: LiveMap, key: SubscriptionKey)
    ensures key in live <==> key in PathsIn(FiltersIn(live))
    ensures key in live <==> key in PlacesIn(live)
    ensures key in live <==> key in FiltersIn(live)
    ensures key in live ==> FiltersIn(live)[key] == live[key].filter
    ensures key in live ==> PlacesIn(live)[key] == Place(Segments(live[key].filter), live[key].tx)
    ensures key in live ==> PathsIn(FiltersIn(live))[key] == PlacesIn(live)[key].path
  {
  }

  /** The entry of a live key, with its latest sender. */
  ghost function LiveEntry(live: LiveMap, key: SubscriptionKey): Entry
    requires key in live
  {
    Entry(Segments(live[key].filter), key, live[key].tx)
  }

  /**
    After every run the trie is well formed and holds nothing but paths of accepted
    filters; the index is the latest filter of each live key; and the trie holds each
    live key at that filter's path with its latest sender.
   */
  lemma {:induction false} RunSound(ops: seq<Op>)
    ensures Sound(Run(ops))
    ensures Run(ops).index == FiltersIn(LiveRun(ops))
    ensures forall key :: key in LiveRun(ops) ==> Holds(Run(ops).root, [], LiveEntry(LiveRun(ops), key))
  {
    RunCarries(ops);
    RunTracks(ops);
    var live := LiveRun(ops);
    forall key | key in live
      ensures Holds(Run(ops).root, [], LiveEntry(live, key))
    {
      LivePath(live, key);
      assert PinnedEntry(HeldRun(ops), LiveEntry(live, key));
    }
  }

  /** The entries that a scan of the reference map finds for these topic segments. */
  ghost function HeldScan(held: map<Pin, Sender>, segs: seq<Segment>): set<Entry> {
    set pin | pin in held && Match(pin.path, segs) :: Entry(pin.path, pin.key, held[pin])
  }

  /** After every run, search collects exactly the scan of the reference map, each entry once. */
  lemma {:induction false} RunSearchHeld(ops: seq<Op>, topic: Topic)
    ensures Answer(Run(ops).root, [], Segments(topic)) == multiset(HeldScan(HeldRun(ops), Segments(topic)))
  {
    RunTracks(ops);
    forall e: Entry
      ensures Answer(Run(ops).root, [], Segments(topic))[e] ==
              multiset(HeldScan(HeldRun(ops), Segments(topic)))[e]
    {
      RunSearchExact(ops, topic, e);
      HeldScanCount(HeldRun(ops), Segments(topic), e);
    }
  }

  lemma {:induction false} HeldScanCount(held: map<Pin, Sender>, segs: seq<Segment>, e: Entry)
    ensures e in HeldScan(held, segs) <==> PinnedEntry(held, e) && Match(e.path, segs)
  {
    if PinnedEntry(held, e) && Match(e.path, segs) {
      assert e == Entry(Pin(e.key, e.path).path, Pin(e.key, e.path).key, held[Pin(e.key, e.path)]);
    }
  }

  // ---- Runs that leave nothing behind ----

  /** Every pair still remembered is a live key under its latest filter. */
  ghost predicate Tidy(ops: seq<Op>) {
    AllPlaced(HeldRun(ops), PlacesIn(LiveRun(ops)))
  }

  /** Index and trie are the image of the live map exactly after the tidy runs. */
  lemma {:induction false} RunRepresentsIff(ops: seq<Op>)
    ensures Represents(Run(ops), LiveRun(ops)) <==> Tidy(ops)
  {
    RunTracks(ops);
    HoldsExactlyIff(Run(ops).root, HeldRun(ops), PlacesIn(LiveRun(ops)));
  }

  /** An insert is tidy iff it finds no other pair of its key and no stale pair of another. */
  lemma {:induction false} InsertTidyIff(ops: seq<Op>, tx: Sender, key: SubscriptionKey, filter: TopicFilter)
    ensures Tidy(ops + [Insert(tx, key, filter)]) <==>
            forall pin :: pin in HeldRun(ops) ==>
              if pin.key == key then pin.path == Segments(filter)
              else pin.key in LiveRun(ops) && pin.path == Segments(LiveRun(ops)[pin.key].filter)
  {
    var live, held := LiveRun(ops), HeldRun(ops);
    RunSnoc(ops, Insert(tx, key, filter));
    RunTracks(ops);
    PlacesInStep(live, key, Live(filter, tx));
    PinsAfterInsert(held, PlacesIn(live), Segments(filter), key, tx);
    forall pin | pin in held
      ensures pin.key in live <==> pin.key in PlacesIn(live)
      ensures pin.key in live ==> PlacesIn(live)[pin.key].path == Segments(live[pin.key].filter)
    {
      LivePath(live, pin.key);
    }
  }

  lemma {:induction false} DeleteTidy(ops: seq<Op>, key: SubscriptionKey)
    requires Tidy(ops)
    ensures Tidy(ops + [Delete(key)])
  {
    var live := LiveRun(ops);
    RunSnoc(ops, Delete(key));
    RunTracks(ops);
    if key in live {
      PlacesInStep(live, key, live[key]);
      PinsAfterDelete(HeldRun(ops), PlacesIn(live), key);
    } else {
      MinusAbsent(live, key);
    }
  }

  /** An inserted key is fresh or keeps its filter. */
  predicate KeepsFilter(index: map<SubscriptionKey, TopicFilter>, op: Op) {
    op.Insert? && op.key in index ==> index[op.key] == op.filter
  }

  /** The rule a caller can follow step by step, looking only at the index. */
  predicate Disciplined(ops: seq<Op>) {
    ops != [] ==>
      && Disciplined(ops[..|ops| - 1])
      && KeepsFilter(Run(ops[..|ops| - 1]).index, ops[|ops| - 1])
  }

  /** Following the rule leaves nothing behind. */
  lemma {:induction false} DisciplinedTidy(ops: seq<Op>)
    requires Disciplined(ops)
    ensures Tidy(ops)
  {
    if ops != [] {
      var front, op := ops[..|ops| - 1], ops[|ops| - 1];
      DisciplinedTidy(front);
      assert ops == front + [op];
      match op
      case Insert(tx, key, filter) => KeepingIsTidy(front, tx, key, filter);
      case Delete(key) => DeleteTidy(front, key);
    }
  }

  lemma {:induction false} KeepingIsTidy(ops: seq<Op>, tx: Sender, key: SubscriptionKey, filter: TopicFilter)
    requires Tidy(ops) && KeepsFilter(Run(ops).index, Insert(tx, key, filter))
    ensures Tidy(ops + [Insert(tx, key, filter)])
  {
    RunTracks(ops);
    InsertTidyIff(ops, tx, key, filter);
    forall pin | pin in HeldRun(ops)
      ensures pin.key in LiveRun(ops) && pin.path == Segments(LiveRun(ops)[pin.key].filter)
    {
      LivePath(LiveRun(ops), pin.key);
    }
    LivePath(LiveRun(ops), key);
  }

  lemma {:induction false} RunSnoc(ops: seq<Op>, op: Op)
    ensures Run(ops + [op]) == Step(Run(ops), op)
    ensures LiveRun(ops + [op]) == LiveStep(LiveRun(ops), op)
    ensures HeldRun(ops + [op]) == HeldStep(HeldRun(ops), LiveRun(ops), op)
    ensures Disciplined(ops + [op]) <==> Disciplined(ops) && KeepsFilter(Run(ops).index, op)
  {
    assert (ops + [op])[..|ops + [op]| - 1] == ops;
  }
}
