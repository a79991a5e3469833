/**
  When a filter matches a topic: `+` takes exactly one segment and a final `#`
  takes zero or more. This is the meaning the subscription trie has to index.
 */
module Matching {
  import opened Common
  import opened Topics
  import opened TopicProofs

  predicate Match(filter: seq<Segment>, topic: seq<Segment>) {
    if filter == [] then topic == []
    else if filter == [HASH] then true
    else
      && topic != []
      && (filter[0] == PLUS || filter[0] == topic[0])
      && Match(filter[1..], topic[1..])
  }

  predicate Matches(filter: TopicFilter, topic: Topic) {
    Match(Segments(filter), Segments(topic))
  }

  /** `#` occurs at most as the last segment. */
  ghost predicate HashLast(path: seq<Segment>) {
    forall i :: 0 <= i < |path| - 1 ==> path[i] != HASH
  }

  ghost predicate HashFree(path: seq<Segment>) {
    forall i :: 0 <= i < |path| ==> path[i] != HASH
  }

  /** Position by position, with no recursion: the first `n` filter segments agree with the topic. */
  ghost predicate AgreeUpTo(filter: seq<Segment>, topic: seq<Segment>, n: nat)
    requires n <= |filter| && n <= |topic|
  {
    forall i :: 0 <= i < n ==> filter[i] == PLUS || filter[i] == topic[i]
  }

  /** Matching, said position by position. */
  lemma {:induction false} MatchIff(filter: seq<Segment>, topic: seq<Segment>)
    requires HashLast(filter)
    ensures Match(filter, topic) <==>
            if filter != [] && filter[|filter| - 1] == HASH
            then |filter| - 1 <= |topic| && AgreeUpTo(filter, topic, |filter| - 1)
            else |filter| == |topic| && AgreeUpTo(filter, topic, |filter|)
  {
    if filter != [] && filter != [HASH] && topic != [] {
      var f, t := filter[1..], topic[1..];
      MatchIff(f, t);
      assert f != [] ==> f[|f| - 1] == filter[|filter| - 1];
      var n := if f != [] && f[|f| - 1] == HASH then |f| - 1 else |f|;
      if n <= |t| {
        assert forall i :: 0 < i <= n ==> filter[i] == f[i - 1] && topic[i] == t[i - 1];
        assert AgreeUpTo(filter, topic, n + 1) ==> AgreeUpTo(f, t, n) by {
          assert forall i :: 0 <= i < n ==> f[i] == filter[i + 1] && t[i] == topic[i + 1];
        }
      }
    }
  }

  lemma {:induction false} FilterIsHashLast(f: TopicFilter)
    ensures HashLast(Segments(f))
    ensures 1 <= |Segments(f)| <= 8
  {
    SegmentsOfAccepted(f);
    assert 35 in HASH;
  }

  lemma {:induction false} TopicIsHashFree(t: Topic)
    ensures HashFree(Segments(t))
    ensures 1 <= |Segments(t)| <= 8
  {
    SegmentsOfAccepted(t);
    assert 35 in HASH;
  }

  /** A filter without wildcards is matched by the topic with the same bytes and no other. */
  lemma {:induction false} LiteralFilterMatchesItself(f: TopicFilter, t: Topic)
    requires 43 !in f && 35 !in f
    ensures Matches(f, t) <==> f == t
  {
    TopicsAreWildcardFreeFilters(f);
    SegmentsOfAccepted(f);
    FilterIsHashLast(f);
    var fs, ts := Segments(f), Segments(t);
    MatchIff(fs, ts);
    assert 43 in PLUS && 35 in HASH;
    if Matches(f, t) {
      assert fs == ts;
      SegmentsInjective(f, t);
    }
  }

  // ---- Every filter is matched by some accepted topic ----

  /** The filter with each wildcard replaced by the letter `x`. */
  function Literal(segs: seq<Segment>): (out: seq<Segment>)
    ensures |out| == |segs|
  {
    seq(|segs|, i requires 0 <= i < |segs| => if segs[i] == PLUS || segs[i] == HASH then [120] else segs[i])
  }

  lemma {:induction false} JoinLength(a: seq<Segment>, b: seq<Segment>)
    requires |a| == |b|
    requires forall i :: 0 <= i < |a| ==> |a[i]| == |b[i]|
    ensures |Join(a)| == |Join(b)|
  {
    if a != [] {
      JoinLength(a[1..], b[1..]);
    }
  }

  /** Wildcards fill whole segments, so replacing them keeps the layers and leaves no wildcard. */
  lemma {:induction false} LiteralLayered(raw: Bytes, segs: seq<Segment>)
    requires Layered(raw, segs) && WildcardsPlaced(segs)
    ensures Layered(Join(Literal(segs)), Literal(segs)) && NoWildcards(Literal(segs))
  {
    var lits := Literal(segs);
    JoinLength(segs, lits);
    forall i | 0 <= i < |segs|
      ensures lits[i] != [] && 47 !in lits[i] && 43 !in lits[i] && 35 !in lits[i]
    {
      assert 43 in segs[i] || 35 in segs[i] ==> segs[i] == [43] || segs[i] == [35];
    }
    assert lits[0] == segs[0] || lits[0] == [120];
    assert |segs| == 1 ==> segs == [segs[0]];
  }

  lemma {:induction false} LiteralMatches(segs: seq<Segment>)
    requires HashLast(segs)
    ensures Match(segs, Literal(segs))
  {
    MatchIff(segs, Literal(segs));
  }

  /** Every accepted filter is matched by an accepted topic. */
  lemma {:induction false} SomeTopicMatches(f: TopicFilter) returns (t: Topic)
    ensures Matches(f, t)
  {
    var fs := Segments(f);
    var raw := Join(Literal(fs));
    SegmentsOfAccepted(f);
    FilterIsHashLast(f);
    LiteralLayered(f, fs);
    TopicNewIff(raw);
    t := raw;
    SegmentsOfAccepted(t);
    SplitJoin(Literal(fs));
    LiteralMatches(fs);
  }
}
