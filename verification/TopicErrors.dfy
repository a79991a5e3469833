/** Which error a rejected name is given, in terms of its bytes rather than of the checks. */
module TopicErrors {
  import opened Common
  import opened Topics
  import opened TopicProofs

  ghost predicate DoubleSlash(raw: Bytes) {
    exists i :: 0 <= i < |raw| - 1 && raw[i] == 47 && raw[i + 1] == 47
  }

  /** Between 1 and 256 bytes, with no slash at either end. */
  ghost predicate Bounded(raw: Bytes) {
    0 < |raw| <= 256 && raw[0] != 47 && raw[|raw| - 1] != 47
  }

  ghost function Layers(raw: Bytes): nat {
    multiset(raw)[47] + 1
  }

  /** The name is `prefix`, or `prefix` is its first layer. */
  ghost predicate FirstLayer(raw: Bytes, prefix: Bytes) {
    raw == prefix || prefix + [47] <= raw
  }

  /** The fault a name has, whatever its wildcards; the earlier a fault is listed, the more it weighs. */
  ghost predicate NameFault(raw: Bytes, e: TopicError) {
    match e
    case Empty => raw == []
    case TooLong(n) => n == |raw| && n > 256
    case LeadingSlash => 0 < |raw| <= 256 && raw[0] == 47
    case TrailingSlash => 0 < |raw| <= 256 && raw[0] != 47 && raw[|raw| - 1] == 47
    case EmptyLayer => Bounded(raw) && DoubleSlash(raw)
    case TooManyLayers(n) => Bounded(raw) && !DoubleSlash(raw) && n == Layers(raw) > 8
    case ReservedSysPrefix =>
      Bounded(raw) && !DoubleSlash(raw) && Layers(raw) <= 8 && FirstLayer(raw, [36, 83, 89, 83])
    case GlobalPrefixWithoutTopic => raw == [36, 71]
    case _ => false
  }

  lemma {:induction false} SplitCount(raw: Bytes)
    ensures |Split(raw)| == Layers(raw)
  {
    if raw != [] {
      SplitCount(raw[1..]);
      assert raw == [raw[0]] + raw[1..];
    }
  }

  lemma {:induction false} SplitFirst(raw: Bytes, prefix: Bytes)
    requires SEP !in prefix
    ensures Split(raw)[0] == prefix <==> FirstLayer(raw, prefix)
    decreases raw
  {
    if raw != [] && raw[0] != SEP {
      if prefix != [] && prefix[0] == raw[0] {
        SplitFirst(raw[1..], prefix[1..]);
        assert raw == [raw[0]] + raw[1..] && prefix == [prefix[0]] + prefix[1..];
        assert (prefix + [SEP])[1..] == prefix[1..] + [SEP];
      } else if prefix == [] {
        assert (prefix + [SEP])[0] == SEP;
      } else {
        assert (prefix + [SEP])[0] == prefix[0];
      }
    } else if prefix != [] {
      assert (prefix + [SEP])[0] == prefix[0];
    }
  }

  /** The shared checks report exactly the fault of the name. */
  lemma {:induction false} ValidateSegmentsError(raw: Bytes, e: TopicError)
    ensures ValidateSegments(raw) == Err(e) <==> NameFault(raw, e)
  {
    if ValidateRaw(raw).Ok? {
      EmptyPieceIff(raw);
      assert [] in Split(raw) <==> Split(raw)[0] == [] || [] in Split(raw)[1..];
      SplitCount(raw);
      SplitFirst(raw, SYS_PREFIX);
      SplitFirst(raw, GLOBAL_PREFIX);
      if |Split(raw)| == 1 {
        JoinSplit(raw);
      }
      GlobalPrefixAlone(raw);
    }
  }

  lemma {:induction false} GlobalPrefixAlone(raw: Bytes)
    ensures raw == GLOBAL_PREFIX ==> Split(raw) == [GLOBAL_PREFIX]
  {
    SplitPrefix(GLOBAL_PREFIX, []);
    assert GLOBAL_PREFIX + [] == GLOBAL_PREFIX;
  }

  /** A publish topic is rejected for the fault of its name, or else for any wildcard byte in it. */
  lemma {:induction false} TopicNewError(raw: Bytes, e: TopicError)
    ensures TopicNew(raw) == Err(e) <==>
            || NameFault(raw, e)
            || (e == WildcardInPublishTopic && (43 in raw || 35 in raw) && forall f :: !NameFault(raw, f))
  {
    forall f
      ensures ValidateSegments(raw) == Err(f) <==> NameFault(raw, f)
    {
      ValidateSegmentsError(raw, f);
    }
    var parsed := ValidateSegments(raw);
    if parsed.Ok? {
      RejectWildcardsError(Matchable(parsed.value));
      SkippingGlobalPrefix(parsed.value);
      JoinSplit(raw);
      JoinWildcards(parsed.value);
    } else {
      assert NameFault(raw, parsed.error);
    }
  }

  lemma {:induction false} RejectWildcardsError(segs: seq<Segment>)
    ensures RejectWildcards(segs).Err? ==> RejectWildcards(segs).error == WildcardInPublishTopic
  {
    if segs != [] {
      RejectWildcardsError(segs[1..]);
    }
  }

  ghost predicate Misplaced(segs: seq<Segment>, i: nat)
    requires i < |segs|
  {
    (43 in segs[i] || 35 in segs[i]) && segs[i] != [43] && !(segs[i] == [35] && i == |segs| - 1)
  }

  ghost predicate FirstMisplaced(segs: seq<Segment>, i: nat) {
    i < |segs| && Misplaced(segs, i) && forall j :: 0 <= j < i ==> !Misplaced(segs, j)
  }

  function WildcardError(seg: Segment): TopicError {
    if seg == [35] then MultiWildcardNotTerminal else InvalidWildcardUsage
  }

  lemma {:induction false} MisplacedShift(segs: seq<Segment>, i: nat)
    requires FirstMisplaced(segs, i) && i > 0
    ensures FirstMisplaced(segs[1..], i - 1)
  {
    assert forall j :: 0 <= j < |segs| - 1 ==> segs[1..][j] == segs[j + 1];
    assert forall j :: 0 <= j < |segs| - 1 ==> Misplaced(segs[1..], j) == Misplaced(segs, j + 1);
  }

  lemma {:induction false} CheckPlacementError(segs: seq<Segment>, i: nat)
    requires FirstMisplaced(segs, i)
    ensures CheckPlacement(segs) == Err(WildcardError(segs[i]))
    decreases i
  {
    if i > 0 {
      MisplacedShift(segs, i);
      CheckPlacementError(segs[1..], i - 1);
      assert !Misplaced(segs, 0);
    }
  }

  /** The error is that of the first misplaced wildcard: a bare `#`, or one mixed into a layer. */
  ghost predicate PlacementFault(segs: seq<Segment>, e: TopicError) {
    exists i: nat :: FirstMisplaced(segs, i) && e == WildcardError(segs[i])
  }

  lemma {:induction false} CheckPlacementFault(segs: seq<Segment>, e: TopicError)
    ensures CheckPlacement(segs) == Err(e) <==> PlacementFault(segs, e)
  {
    if i: nat :| FirstMisplaced(segs, i) {
      CheckPlacementError(segs, i);
      forall j: nat | FirstMisplaced(segs, j)
        ensures j == i
      {
      }
    } else {
      NoneMisplaced(segs, |segs|);
      CheckPlacementIff(segs);
    }
  }

  lemma {:induction false} NoneMisplaced(segs: seq<Segment>, n: nat)
    requires n <= |segs| && forall i: nat :: !FirstMisplaced(segs, i)
    ensures forall i :: 0 <= i < n ==> !Misplaced(segs, i)
  {
    if n > 0 {
      NoneMisplaced(segs, n - 1);
      assert !FirstMisplaced(segs, n - 1);
    }
  }

  lemma {:induction false} PlacementFaultShift(segs: seq<Segment>, e: TopicError)
    requires segs != [] && segs[0] == GLOBAL_PREFIX
    ensures PlacementFault(segs, e) <==> PlacementFault(segs[1..], e)
  {
    assert !Misplaced(segs, 0);
    if i: nat :| FirstMisplaced(segs, i) && e == WildcardError(segs[i]) {
      MisplacedShift(segs, i);
      assert segs[1..][i - 1] == segs[i];
    }
    if i: nat :| FirstMisplaced(segs[1..], i) && e == WildcardError(segs[1..][i]) {
      assert forall j :: 0 <= j < |segs| - 1 ==> segs[1..][j] == segs[j + 1];
      assert forall j :: 0 < j < |segs| ==> Misplaced(segs, j) == Misplaced(segs[1..], j - 1);
      assert FirstMisplaced(segs, i + 1);
    }
  }

  /** A filter is rejected for the fault of its name, or, having none, for its first misplaced wildcard. */
  lemma {:induction false} FilterNewError(raw: Bytes, e: TopicError)
    ensures FilterNew(raw) == Err(e) <==>
            || NameFault(raw, e)
            || ((forall f :: !NameFault(raw, f)) && PlacementFault(Split(raw), e))
  {
    forall f
      ensures ValidateSegments(raw) == Err(f) <==> NameFault(raw, f)
    {
      ValidateSegmentsError(raw, f);
    }
    var parsed := ValidateSegments(raw);
    if parsed.Ok? {
      var segs := parsed.value;
      CheckPlacementFault(Matchable(segs), e);
      if segs[0] == GLOBAL_PREFIX {
        PlacementFaultShift(segs, e);
      }
    } else {
      assert NameFault(raw, parsed.error);
    }
  }
}
