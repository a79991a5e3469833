/** Splitting and joining are inverse, and the constructors accept exactly the grammar. */
module TopicProofs {
  import opened Common
  import opened Topics

  lemma {:induction false} JoinSplit(raw: Bytes)
    ensures Join(Split(raw)) == raw
  {
    if raw != [] {
      var rest := Split(raw[1..]);
      JoinSplit(raw[1..]);
      if raw[0] == SEP {
        assert ([[]] + rest)[1..] == rest;
        assert raw == [SEP] + raw[1..];
      } else {
        var segs := [[raw[0]] + rest[0]] + rest[1..];
        assert Split(raw) == segs && segs[1..] == rest[1..];
        assert raw == [raw[0]] + raw[1..];
      }
    }
  }

  lemma {:induction false} SplitPrefix(seg: Segment, raw: Bytes)
    requires SEP !in seg
    ensures Split(seg + raw) == [seg + Split(raw)[0]] + Split(raw)[1..]
  {
    if seg == [] {
      assert seg + raw == raw;
      assert [] + Split(raw)[0] == Split(raw)[0];
    } else {
      assert (seg + raw)[1..] == seg[1..] + raw;
      SplitPrefix(seg[1..], raw);
      assert [seg[0]] + (seg[1..] + Split(raw)[0]) == seg + Split(raw)[0];
    }
  }

  lemma {:induction false} SplitJoin(segs: seq<Segment>)
    requires segs != []
    requires forall i :: 0 <= i < |segs| ==> SEP !in segs[i]
    ensures Split(Join(segs)) == segs
  {
    if |segs| == 1 {
      SplitPrefix(segs[0], []);
      assert segs[0] + [] == segs[0];
    } else {
      var tail := [SEP] + Join(segs[1..]);
      SplitPrefix(segs[0], tail);
      SplitJoin(segs[1..]);
      assert tail[1..] == Join(segs[1..]);
      assert Join(segs) == segs[0] + tail;
      assert Split(tail) == [[]] + segs[1..];
      assert segs[0] + [] == segs[0];
      assert segs == [segs[0]] + segs[1..];
    }
  }

  lemma {:induction false} DropEmptyKeeps(segs: seq<Segment>)
    requires [] !in segs
    ensures DropEmpty(segs) == segs
  {
    if segs != [] {
      DropEmptyKeeps(segs[1..]);
    }
  }

  lemma {:induction false} SplitAtSlash(a: Bytes, b: Bytes)
    ensures Split(a + [47] + b) == Split(a) + Split(b)
  {
    var all := a + [47] + b;
    if a == [] {
      assert all[1..] == b;
    } else {
      SplitAtSlash(a[1..], b);
      assert all[1..] == a[1..] + [47] + b;
    }
  }

  lemma {:induction false} DropEmptyConcat(x: seq<Segment>, y: seq<Segment>)
    ensures DropEmpty(x + y) == DropEmpty(x) + DropEmpty(y)
  {
    if x == [] {
      assert x + y == y;
    } else {
      assert (x + y)[1..] == x[1..] + y;
      DropEmptyConcat(x[1..], y);
    }
  }

  /** `segments()` of any bytes: a slash separates, and slash-free bytes are one segment, or none if empty. */
  lemma {:induction false} SegmentsLaw(a: Bytes, b: Bytes)
    ensures Segments(a + [47] + b) == Segments(a) + Segments(b)
    ensures 47 !in a ==> Segments(a) == if a == [] then [] else [a]
  {
    SplitAtSlash(a, b);
    DropEmptyConcat(Split(a), Split(b));
    if 47 !in a {
      SplitPrefix(a, []);
      assert a + [] == a && Split([]) == [[]];
      assert Split(a) == [a];
      assert DropEmpty([a]) == if a == [] then [] else [a] + DropEmpty([]);
    }
  }

  lemma {:induction false} RejectWildcardsIff(segs: seq<Segment>)
    ensures RejectWildcards(segs).Ok? <==> NoWildcards(segs)
  {
    if segs != [] {
      RejectWildcardsIff(segs[1..]);
      assert forall i :: 0 < i < |segs| ==> segs[i] == segs[1..][i - 1];
      assert NoWildcards(segs) ==> NoWildcards(segs[1..]);
    }
  }

  lemma {:induction false} CheckPlacementIff(segs: seq<Segment>)
    ensures CheckPlacement(segs).Ok? <==> WildcardsPlaced(segs)
  {
    if segs != [] {
      var tail := segs[1..];
      CheckPlacementIff(tail);
      assert forall i :: 0 < i < |segs| ==> segs[i] == tail[i - 1];
      if WildcardsPlaced(segs) {
        assert forall i :: 0 <= i < |tail| ==> tail[i] == segs[i + 1];
      }
    }
  }

  /** Leaving out a leading `$G` changes neither verdict: `$G` has no wildcard in it. */
  lemma SkippingGlobalPrefix(segs: seq<Segment>)
    requires segs != []
    ensures RejectWildcards(Matchable(segs)).Ok? <==> NoWildcards(segs)
    ensures CheckPlacement(Matchable(segs)).Ok? <==> WildcardsPlaced(segs)
  {
    RejectWildcardsIff(segs);
    CheckPlacementIff(segs);
  }

  lemma JoinNonEmpty(segs: seq<Segment>)
    requires segs != [] && segs[0] != []
    ensures Join(segs) != [] && Join(segs)[0] == segs[0][0]
  {
  }

  lemma {:induction false} JoinLast(segs: seq<Segment>)
    requires segs != [] && segs[|segs| - 1] != []
    ensures Join(segs) != []
    ensures var last := segs[|segs| - 1]; Join(segs)[|Join(segs)| - 1] == last[|last| - 1]
  {
    if |segs| > 1 {
      JoinLast(segs[1..]);
    }
  }

  /** The first half of validation accepts exactly the layered names, and yields their layers. */
  lemma ValidateSegmentsIff(raw: Bytes, segs: seq<Segment>)
    ensures ValidateSegments(raw) == Ok(segs) <==> Layered(raw, segs)
  {
    if Layered(raw, segs) {
      SplitJoin(segs);
      JoinNonEmpty(segs);
      JoinLast(segs);
      assert segs[0][0] in segs[0];
      var last := segs[|segs| - 1];
      assert last[|last| - 1] in last;
      assert Split(raw) == segs;
    }
    if ValidateSegments(raw) == Ok(segs) {
      JoinSplit(raw);
      assert forall i :: 0 <= i < |segs| ==> segs[i] in segs;
      assert segs[0] != GLOBAL_PREFIX || |segs| >= 2;
    }
  }

  /** `Topic::new` accepts exactly the grammar of publish topics, and keeps the bytes. */
  lemma TopicNewIff(raw: Bytes)
    ensures TopicNew(raw).Ok? <==> TopicGrammar(raw)
    ensures TopicNew(raw).Ok? ==> TopicNew(raw).value == raw
  {
    var parsed := ValidateSegments(raw);
    if parsed.Ok? {
      ValidateSegmentsIff(raw, parsed.value);
      SkippingGlobalPrefix(parsed.value);
    }
    if segs :| Layered(raw, segs) && NoWildcards(segs) {
      ValidateSegmentsIff(raw, segs);
    }
  }

  /** `TopicFilter::new` accepts exactly the grammar of filters, and keeps the bytes. */
  lemma FilterNewIff(raw: Bytes)
    ensures FilterNew(raw).Ok? <==> FilterGrammar(raw)
    ensures FilterNew(raw).Ok? ==> FilterNew(raw).value == raw
  {
    var parsed := ValidateSegments(raw);
    if parsed.Ok? {
      ValidateSegmentsIff(raw, parsed.value);
      SkippingGlobalPrefix(parsed.value);
    }
    if segs :| Layered(raw, segs) && WildcardsPlaced(segs) {
      ValidateSegmentsIff(raw, segs);
    }
  }

  /** `segments()` of an accepted name loses nothing: it is the split, and it joins back. */
  lemma SegmentsOfAccepted(raw: Bytes)
    requires IsTopic(raw) || IsFilter(raw)
    ensures Segments(raw) == Split(raw)
    ensures Layered(raw, Segments(raw))
    ensures IsTopic(raw) ==> NoWildcards(Segments(raw))
    ensures IsFilter(raw) ==> WildcardsPlaced(Segments(raw))
  {
    var segs := ValidateSegments(raw).value;
    ValidateSegmentsIff(raw, segs);
    SkippingGlobalPrefix(segs);
    DropEmptyKeeps(segs);
  }

  /** Two accepted filters with the same segments are the same bytes. */
  lemma SegmentsInjective(f: Bytes, g: Bytes)
    requires IsTopic(f) || IsFilter(f)
    requires IsTopic(g) || IsFilter(g)
    requires Segments(f) == Segments(g)
    ensures f == g
  {
    SegmentsOfAccepted(f);
    SegmentsOfAccepted(g);
  }

  /** The accepted topics are exactly the accepted filters in which no wildcard byte occurs. */
  lemma TopicsAreWildcardFreeFilters(raw: Bytes)
    ensures IsTopic(raw) <==> IsFilter(raw) && 43 !in raw && 35 !in raw
  {
    if IsTopic(raw) || IsFilter(raw) {
      SegmentsOfAccepted(raw);
      JoinWildcards(Segments(raw));
      SkippingGlobalPrefix(Split(raw));
    }
  }

  lemma {:induction false} JoinWildcards(segs: seq<Segment>)
    ensures 43 in Join(segs) || 35 in Join(segs) <==> !NoWildcards(segs)
  {
    if segs != [] {
      JoinWildcards(segs[1..]);
      assert forall i :: 0 < i < |segs| ==> segs[i] == segs[1..][i - 1];
      if !NoWildcards(segs[1..]) {
        var i :| 0 <= i < |segs[1..]| && HasWildcard(segs[1..][i]);
        assert HasWildcard(segs[i + 1]);
      }
    }
  }

  /** In a name that does not end in a slash, an empty piece is a leading slash or two slashes in a row. */
  lemma {:induction false} EmptyPieceIff(raw: Bytes)
    requires raw != [] && raw[|raw| - 1] != SEP
    ensures Split(raw)[0] == [] <==> raw[0] == SEP
    ensures [] in Split(raw)[1..] <==>
            exists i :: 0 <= i < |raw| - 1 && raw[i] == SEP && raw[i + 1] == SEP
  {
    var tail := raw[1..];
    if tail == [] {
      assert Split(tail) == [[]];
    } else {
      EmptyPieceIff(tail);
      var rest := Split(tail);
      assert Split(raw)[1..] == if raw[0] == SEP then rest else rest[1..];
      assert [] in rest <==> rest[0] == [] || [] in rest[1..];
      if i :| 0 <= i < |raw| - 1 && raw[i] == SEP && raw[i + 1] == SEP {
        assert i > 0 ==> tail[i - 1] == SEP && tail[i] == SEP;
      }
      if i :| 0 <= i < |tail| - 1 && tail[i] == SEP && tail[i + 1] == SEP {
        assert raw[i + 1] == SEP && raw[i + 2] == SEP;
      }
    }
  }
}
