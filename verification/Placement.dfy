/**
  The trie against a plain map from key to path and sender: which entries a trie
  holds after an insert or a delete, in terms of paths alone.
 */
module Placement {
  import opened Topics
  import opened Matching
  import opened Trie
  import opened TrieShape
  import opened TrieSearch
  import opened TrieSize

  /** The segments of some accepted filter. */
  ghost predicate FilterPath(path: seq<Segment>) {
    Layered(Join(path), path) && WildcardsPlaced(path)
  }

  /** The trie is well formed, holds each key of `paths` at its path, and holds only filter paths. */
  ghost predicate Carries(root: Node, paths: map<SubscriptionKey, seq<Segment>>) {
    && WellFormed(root)
    && root.level == []
    && (forall key :: key in paths ==> key in SubsAt(root, paths[key]))
    && (forall path :: SubsAt(root, path) != map[] ==> FilterPath(path))
  }

  lemma {:induction false} PlantedCarries(root: Node, paths: map<SubscriptionKey, seq<Segment>>,
                       path: seq<Segment>, key: SubscriptionKey, tx: Sender)
    requires Carries(root, paths) && FilterPath(path) && HashLast(path)
    ensures Carries(Planted(root, path, key, tx), paths[key := path])
  {
    PlantedWellFormed(root, path, key, tx);
    PlantedLevel(root, path, key, tx);
    var root' := Planted(root, path, key, tx);
    var paths' := paths[key := path];
    forall k | k in paths'
      ensures k in SubsAt(root', paths'[k])
    {
      PlantedSubs(root, path, key, tx, paths'[k]);
    }
    forall q | SubsAt(root', q) != map[]
      ensures FilterPath(q)
    {
      PlantedSubs(root, path, key, tx, q);
    }
  }

  lemma {:induction false} UprootedCarries(root: Node, paths: map<SubscriptionKey, seq<Segment>>, key: SubscriptionKey)
    requires Carries(root, paths) && key in paths
    ensures Carries(Uprooted(root, paths[key], key), paths - {key})
  {
    var path := paths[key];
    UprootedWellFormed(root, path, key);
    UprootedLevel(root, path, key);
    WellFormedUnambiguous(root);
    var root' := Uprooted(root, path, key);
    forall k | k in paths - {key}
      ensures k in SubsAt(root', paths[k])
    {
      UprootedSubs(root, path, key, paths[k]);
    }
    forall q | SubsAt(root', q) != map[]
      ensures FilterPath(q)
    {
      UprootedSubs(root, path, key, q);
    }
  }

  // ---- Tries that hold nothing but one entry per key ----

  datatype Place = Place(path: seq<Segment>, tx: Sender)

  ghost predicate PlacedEntry(places: map<SubscriptionKey, Place>, e: Entry) {
    e.key in places && places[e.key] == Place(e.path, e.tx)
  }

  ghost predicate HoldsExactly(root: Node, places: map<SubscriptionKey, Place>) {
    forall e: Entry :: Holds(root, [], e) <==> PlacedEntry(places, e)
  }

  lemma {:induction false} PlantedHolds(root: Node, path: seq<Segment>, key: SubscriptionKey, tx: Sender, e: Entry)
    ensures Holds(Planted(root, path, key, tx), [], e) <==>
            if e.path == path && e.key == key then e.tx == tx else Holds(root, [], e)
  {
    assert e.path[0..] == e.path;
    PlantedSubs(root, path, key, tx, e.path);
  }

  lemma {:induction false} UprootedHolds(root: Node, path: seq<Segment>, key: SubscriptionKey, e: Entry)
    requires Unambiguous(root)
    ensures Holds(Uprooted(root, path, key), [], e) <==>
            Holds(root, [], e) && !(e.path == path && e.key == key)
  {
    assert e.path[0..] == e.path;
    UprootedSubs(root, path, key, e.path);
  }

  /** What an insert does to the entries of the trie, all at once. */
  lemma {:induction false} PlantedHoldsAll(root: Node, path: seq<Segment>, key: SubscriptionKey, tx: Sender)
    ensures forall e: Entry :: Holds(Planted(root, path, key, tx), [], e) <==>
              if e.path == path && e.key == key then e.tx == tx else Holds(root, [], e)
  {
    forall e: Entry
      ensures Holds(Planted(root, path, key, tx), [], e) <==>
              if e.path == path && e.key == key then e.tx == tx else Holds(root, [], e)
    {
      PlantedHolds(root, path, key, tx, e);
    }
  }

  /** What a delete does to the entries of the trie, all at once. */
  lemma {:induction false} UprootedHoldsAll(root: Node, path: seq<Segment>, key: SubscriptionKey)
    requires WellFormed(root)
    ensures forall e: Entry :: Holds(Uprooted(root, path, key), [], e) <==>
              Holds(root, [], e) && !(e.path == path && e.key == key)
  {
    WellFormedUnambiguous(root);
    forall e: Entry
      ensures Holds(Uprooted(root, path, key), [], e) <==>
              Holds(root, [], e) && !(e.path == path && e.key == key)
    {
      UprootedHolds(root, path, key, e);
    }
  }

  // ---- Tries with any number of entries per key ----

  /** A key under one path. */
  datatype Pin = Pin(key: SubscriptionKey, path: seq<Segment>)

  ghost predicate PinnedEntry(pins: map<Pin, Sender>, e: Entry) {
    Pin(e.key, e.path) in pins && pins[Pin(e.key, e.path)] == e.tx
  }

  ghost predicate HoldsPinned(root: Node, pins: map<Pin, Sender>) {
    forall e: Entry :: Holds(root, [], e) <==> PinnedEntry(pins, e)
  }

  lemma {:induction false} PlantedPinned(root: Node, pins: map<Pin, Sender>,
                                         path: seq<Segment>, key: SubscriptionKey, tx: Sender)
    requires HoldsPinned(root, pins)
    ensures HoldsPinned(Planted(root, path, key, tx), pins[Pin(key, path) := tx])
  {
    PlantedHoldsAll(root, path, key, tx);
  }

  lemma {:induction false} UprootedPinned(root: Node, pins: map<Pin, Sender>, path: seq<Segment>, key: SubscriptionKey)
    requires WellFormed(root) && HoldsPinned(root, pins)
    ensures HoldsPinned(Uprooted(root, path, key), pins - {Pin(key, path)})
  {
    UprootedHoldsAll(root, path, key);
  }

  /** Every key is pinned at its place, with its sender. */
  ghost predicate PinsPlaces(pins: map<Pin, Sender>, places: map<SubscriptionKey, Place>) {
    forall key :: key in places ==>
      Pin(key, places[key].path) in pins && pins[Pin(key, places[key].path)] == places[key].tx
  }

  /** Every pin is the place of its key: nothing was left behind by a move. */
  predicate AllPlaced(pins: map<Pin, Sender>, places: map<SubscriptionKey, Place>) {
    forall pin :: pin in pins ==> pin.key in places && places[pin.key].path == pin.path
  }

  lemma {:induction false} PinsAfterInsert(pins: map<Pin, Sender>, places: map<SubscriptionKey, Place>,
                                           path: seq<Segment>, key: SubscriptionKey, tx: Sender)
    requires PinsPlaces(pins, places)
    ensures PinsPlaces(pins[Pin(key, path) := tx], places[key := Place(path, tx)])
    ensures AllPlaced(pins[Pin(key, path) := tx], places[key := Place(path, tx)]) <==>
            forall pin :: pin in pins ==>
              if pin.key == key then pin.path == path
              else pin.key in places && places[pin.key].path == pin.path
  {
    var pins', places' := pins[Pin(key, path) := tx], places[key := Place(path, tx)];
    if AllPlaced(pins', places') {
      forall pin | pin in pins
        ensures if pin.key == key then pin.path == path
                else pin.key in places && places[pin.key].path == pin.path
      {
        assert pin in pins';
      }
    }
  }

  lemma {:induction false} PinsAfterDelete(pins: map<Pin, Sender>, places: map<SubscriptionKey, Place>,
                                           key: SubscriptionKey)
    requires PinsPlaces(pins, places) && key in places
    ensures PinsPlaces(pins - {Pin(key, places[key].path)}, places - {key})
    ensures AllPlaced(pins, places) ==> AllPlaced(pins - {Pin(key, places[key].path)}, places - {key})
  {
  }

  /** A trie with these pins holds just one entry per key iff every pin is the place of its key. */
  lemma {:induction false} HoldsExactlyIff(root: Node, pins: map<Pin, Sender>, places: map<SubscriptionKey, Place>)
    requires HoldsPinned(root, pins) && PinsPlaces(pins, places)
    ensures HoldsExactly(root, places) <==> AllPlaced(pins, places)
  {
    if HoldsExactly(root, places) {
      forall pin | pin in pins
        ensures pin.key in places && places[pin.key].path == pin.path
      {
        assert PinnedEntry(pins, Entry(pin.path, pin.key, pins[pin]));
      }
    }
  }

  /** A trie that holds nothing is the trie of a fresh router. */
  lemma {:induction false} HoldsNothing(root: Node)
    requires WellFormed(root) && root.level == []
    requires forall q :: SubsAt(root, q) == map[]
    ensures root == NewNode([])
  {
    assert root.subs == SubsAt(root, []);
    if root.children.Children? {
      var q := LiveHolds(root);
      assert false;
    }
  }

  // ---- Few pins, few nodes ----

  /** Besides the root, the trie has at most eight nodes per pin. */
  lemma {:induction false} SizeOfPinned(root: Node, paths: map<SubscriptionKey, seq<Segment>>, pins: map<Pin, Sender>)
    requires Carries(root, paths) && HoldsPinned(root, pins)
    ensures Size(root) - 1 <= 8 * |pins|
  {
    WellFormedUnambiguous(root);
    PathsSize(root);
    var held := map pin | pin in pins :: pin.path;
    var nodes := Paths(root) - {[]};
    forall p | p in nodes
      ensures exists pin :: pin in held && p <= held[pin]
    {
      var pin := NodeHasPin(root, pins, p);
      assert pin in held && p <= held[pin];
    }
    forall pin | pin in held
      ensures |held[pin]| <= 8
    {
      PinnedIsFilterPath(root, paths, pins, pin);
    }
    PrefixesOfMany(held, nodes, 8);
    assert held.Keys == pins.Keys;
    assert |held| == |held.Keys| && |pins| == |pins.Keys|;
    assert [] in Paths(root);
  }

  lemma {:induction false} NodeHasPin(root: Node, pins: map<Pin, Sender>, p: seq<Segment>) returns (pin: Pin)
    requires WellFormed(root) && HoldsPinned(root, pins) && p in Paths(root) && p != []
    ensures pin in pins && p <= pin.path
  {
    WellFormedUnambiguous(root);
    PathsReach(root, p);
    var q := ReachedHolds(root, p);
    var key :| key in SubsAt(root, q);
    assert q[0..] == q;
    assert Holds(root, [], Entry(q, key, SubsAt(root, q)[key]));
    pin := Pin(key, q);
  }

  lemma {:induction false} PinnedIsFilterPath(root: Node, paths: map<SubscriptionKey, seq<Segment>>,
                                              pins: map<Pin, Sender>, pin: Pin)
    requires Carries(root, paths) && HoldsPinned(root, pins) && pin in pins
    ensures FilterPath(pin.path)
  {
    assert PinnedEntry(pins, Entry(pin.path, pin.key, pins[pin]));
    assert pin.path[0..] == pin.path;
  }

  /** If every pin is the place of its key, there are no more pins than keys. */
  lemma {:induction false} AllPlacedCount(pins: map<Pin, Sender>, places: map<SubscriptionKey, Place>)
    requires AllPlaced(pins, places)
    ensures |pins| <= |places|
    decreases |pins|
  {
    if pins != map[] {
      var pin :| pin in pins;
      MinusOne(pins, pin);
      MinusOne(places, pin.key);
      AllPlacedCount(pins - {pin}, places - {pin.key});
    }
  }
}
