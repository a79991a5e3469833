/** The explicit stack of the search: what it still owes, and how much work it can still cause. */
module StackSearch {
  import opened Topics
  import opened Trie
  import opened TrieShape
  import opened TrieSearch

  /** A stack entry: a node and the topic segments still to be matched below it. */
  type Frame = (Node, seq<Segment>)

  /** All that the search loop relies on: siblings differ, and nothing is in a queue group. */
  ghost predicate Searchable(n: Node) {
    n.groups == map[] && DistinctLevels(Kids(n)) && forall kid :: kid in Kids(n) ==> Searchable(kid)
  }

  lemma {:induction false} WellFormedSearchable(n: Node)
    requires WellFormed(n)
    ensures Searchable(n)
    decreases n
  {
    forall kid | kid in Kids(n)
      ensures Searchable(kid)
    {
      WellFormedSearchable(kid);
    }
  }

  ghost predicate AllSearchable(stack: seq<Frame>) {
    forall f :: f in stack ==> Searchable(f.0)
  }

  /** What the frames on the stack will collect; `prefixes` says where their nodes sit. */
  ghost function Owed(stack: seq<Frame>, prefixes: seq<seq<Segment>>): multiset<Entry>
    requires |stack| == |prefixes|
  {
    if stack == [] then multiset{}
    else
      var (node, remaining) := stack[|stack| - 1];
      Owed(stack[..|stack| - 1], prefixes[..|stack| - 1]) + Answer(node, prefixes[|stack| - 1], remaining)
  }

  lemma {:induction false} OwedPush(stack: seq<Frame>, prefixes: seq<seq<Segment>>, f: Frame, prefix: seq<Segment>)
    requires |stack| == |prefixes|
    ensures Owed(stack + [f], prefixes + [prefix]) == Owed(stack, prefixes) + Answer(f.0, prefix, f.1)
  {
    assert (stack + [f])[..|stack|] == stack && (prefixes + [prefix])[..|stack|] == prefixes;
  }

  /** Pushing a child that follows the next segment: the stack owes its share too. */
  lemma {:induction false} PushFollower(stack: seq<Frame>, prefixes: seq<seq<Segment>>,
                                        child: Node, prefix: seq<Segment>, remaining: seq<Segment>)
    requires |stack| == |prefixes| && remaining != []
    ensures Follows(child, remaining[0]) ==>
              Owed(stack + [(child, remaining[1..])], prefixes + [prefix + [child.level]]) ==
              Owed(stack, prefixes) + KidAnswer(child, prefix, remaining)
    ensures !Follows(child, remaining[0]) ==> KidAnswer(child, prefix, remaining) == multiset{}
    ensures AllSearchable(stack) && Searchable(child) ==> AllSearchable(stack + [(child, remaining[1..])])
    ensures Potential(stack + [(child, remaining[1..])]) == Potential(stack) + Cost(|remaining| - 1)
  {
    OwedPush(stack, prefixes, (child, remaining[1..]), prefix + [child.level]);
    PotentialPush(stack, (child, remaining[1..]));
  }

  /** A visit moves entries from what is owed to what is collected; the total stays. */
  lemma {:induction false} Conserve<T>(got: seq<T>, more: seq<T>, below: multiset<T>, share: multiset<T>,
                                       owed: multiset<T>, total: multiset<T>)
    requires multiset(got) + (below + share) == total
    requires multiset(more) + owed == share + below
    ensures multiset(got + more) + owed == total
  {
    assert multiset(got + more) == multiset(got) + multiset(more);
    assert multiset(got + more) + owed == multiset(got) + (multiset(more) + owed);
    assert share + below == below + share;
  }

  lemma {:induction false} ShowsAppend(list: seq<Hit>, entries: seq<Entry>, more: seq<Hit>, moreEntries: seq<Entry>)
    requires Shows(list, entries) && Shows(more, moreEntries)
    ensures Shows(list + more, entries + moreEntries)
  {
  }

  function Pow2(n: nat): nat {
    if n == 0 then 1 else 2 * Pow2(n - 1)
  }

  lemma {:induction false} Pow2Grows(m: nat, n: nat)
    requires m <= n
    ensures 1 <= Pow2(m) <= Pow2(n)
    decreases n
  {
    if m < n {
      Pow2Grows(m, n - 1);
    } else if n > 0 {
      Pow2Grows(m - 1, n - 1);
    }
  }

  /** The most pops that a frame with `n` segments left can lead to, its own included. */
  function Cost(n: nat): (c: nat)
    ensures c >= 1
  {
    Pow2Grows(0, n + 1);
    assert Pow2(n + 1) == 2 * Pow2(n);
    Pow2Grows(0, n);
    Pow2(n + 1) - 1
  }

  function Potential(stack: seq<Frame>): nat {
    if stack == [] then 0
    else Potential(stack[..|stack| - 1]) + Cost(|stack[|stack| - 1].1|)
  }

  lemma {:induction false} PotentialPush(stack: seq<Frame>, f: Frame)
    ensures Potential(stack + [f]) == Potential(stack) + Cost(|f.1|)
  {
    assert (stack + [f])[..|stack|] == stack;
  }

  /** The cost of pushing the followers among these siblings, at `c` each. */
  function FollowersCost(kids: seq<Node>, segment: Segment, c: nat): nat {
    if kids == [] then 0
    else FollowersCost(kids[..|kids| - 1], segment, c) + if Follows(kids[|kids| - 1], segment) then c else 0
  }

  /** Siblings differ, so only the literal child and the `+` child can follow. */
  lemma {:induction false} FollowersCostIs(kids: seq<Node>, segment: Segment, c: nat)
    requires DistinctLevels(kids)
    ensures FollowersCost(kids, segment, c) ==
            (if HasLevel(kids, segment) then c else 0) +
            (if segment != PLUS && HasLevel(kids, PLUS) then c else 0)
  {
    if kids != [] {
      var front, last := kids[..|kids| - 1], kids[|kids| - 1];
      assert kids == front + [last];
      FollowersCostIs(front, segment, c);
      HasLevelAppend(front, last, segment);
      HasLevelAppend(front, last, PLUS);
    }
  }

  /** Popping a frame and pushing its followers leaves room for the pop itself. */
  lemma {:induction false} PopPays(kids: seq<Node>, remaining: seq<Segment>)
    requires DistinctLevels(kids) && remaining != []
    ensures FollowersCost(kids, remaining[0], Cost(|remaining| - 1)) + 1 <= Cost(|remaining|)
  {
    FollowersCostIs(kids, remaining[0], Cost(|remaining| - 1));
    assert Pow2(|remaining| + 1) == 2 * Pow2(|remaining|);
  }

  /** Moving on to the next sibling. */
  lemma {:induction false} NextSibling(kids: seq<Node>, n: nat, prefix: seq<Segment>, remaining: seq<Segment>, c: nat)
    requires n < |kids| && remaining != []
    ensures KidsAnswer(kids[..n + 1], prefix, remaining) ==
            KidsAnswer(kids[..n], prefix, remaining) + KidAnswer(kids[n], prefix, remaining)
    ensures FollowersCost(kids[..n + 1], remaining[0], c) ==
            FollowersCost(kids[..n], remaining[0], c) + if Follows(kids[n], remaining[0]) then c else 0
  {
    assert kids[..n + 1][..n] == kids[..n];
  }

  /** A validated topic has at most eight segments. */
  lemma {:induction false} CostOfTopic(n: nat)
    requires n <= 8
    ensures Cost(n) <= 511
  {
    Pow2Grows(n + 1, 9);
    assert Pow2(9) == 512 by {
      assert Pow2(3) == 8;
      assert Pow2(6) == 64;
    }
  }
}
