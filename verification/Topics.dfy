/**
  Publish topics and subscription filters: splitting on `/` and the chain of
  checks that guards the constructors `Topic::new` and `TopicFilter::new`.
 */
module Topics {
  import opened Common

  const MAX_LAYERS := 8
  const MAX_TOPIC_LENGTH := 256

  const SEP: Byte := 47 // '/'
  const PLUS_BYTE: Byte := 43
  const HASH_BYTE: Byte := 35
  const PLUS: Bytes := [PLUS_BYTE]
  const HASH: Bytes := [HASH_BYTE]
  const SYS_PREFIX: Bytes := [36, 83, 89, 83] // "$SYS"
  const GLOBAL_PREFIX: Bytes := [36, 71] // "$G"

  type Segment = Bytes

  datatype TopicError =
    | Empty
    | TooLong(len: nat)
    | LeadingSlash
    | TrailingSlash
    | EmptyLayer
    | TooManyLayers(count: nat)
    | ReservedSysPrefix
    | GlobalPrefixWithoutTopic
    | WildcardInPublishTopic
    | MultiWildcardNotTerminal
    | InvalidWildcardUsage

  /** `slice::split` on the separator: always at least one, possibly empty, piece. */
  function Split(raw: Bytes): (segs: seq<Segment>)
    ensures |segs| >= 1
    ensures forall i :: 0 <= i < |segs| ==> SEP !in segs[i]
  {
    if raw == [] then [[]]
    else
      var rest := Split(raw[1..]);
      if raw[0] == SEP then [[]] + rest else [[raw[0]] + rest[0]] + rest[1..]
  }

  function Join(segs: seq<Segment>): Bytes {
    if segs == [] then []
    else if |segs| == 1 then segs[0]
    else segs[0] + [47] + Join(segs[1..])
  }

  function DropEmpty(segs: seq<Segment>): seq<Segment> {
    if segs == [] then []
    else if segs[0] == [] then DropEmpty(segs[1..])
    else [segs[0]] + DropEmpty(segs[1..])
  }

  /** `Topic::segments` and `TopicFilter::segments`. */
  function Segments(raw: Bytes): seq<Segment> {
    DropEmpty(Split(raw))
  }

  function ValidateRaw(raw: Bytes): Result<Bytes, TopicError> {
    if raw == [] then Err(Empty)
    else if |raw| > MAX_TOPIC_LENGTH then Err(TooLong(|raw|))
    else if raw[0] == SEP then Err(LeadingSlash)
    else if raw[|raw| - 1] == SEP then Err(TrailingSlash)
    else Ok(raw)
  }

  function ValidateSegments(raw: Bytes): (r: Result<seq<Segment>, TopicError>)
    ensures r.Ok? ==> r.value == Split(raw)
  {
    var checked := ValidateRaw(raw);
    if checked.Err? then Err(checked.error)
    else
      var segs := Split(raw);
      if [] in segs then Err(EmptyLayer)
      else if |segs| > MAX_LAYERS then Err(TooManyLayers(|segs|))
      else if segs[0] == SYS_PREFIX then Err(ReservedSysPrefix)
      else if segs[0] == GLOBAL_PREFIX && |segs| < 2 then Err(GlobalPrefixWithoutTopic)
      else Ok(segs)
  }

  predicate HasWildcard(seg: Segment) {
    PLUS_BYTE in seg || HASH_BYTE in seg
  }

  function Matchable(segs: seq<Segment>): seq<Segment>
    requires segs != []
  {
    if segs[0] == GLOBAL_PREFIX then segs[1..] else segs
  }

  /** `try_for_each` over a publish topic: the first segment with a wildcard is the error. */
  function RejectWildcards(segs: seq<Segment>): Result<(), TopicError> {
    if segs == [] then Ok(())
    else if HasWildcard(segs[0]) then Err(WildcardInPublishTopic)
    else RejectWildcards(segs[1..])
  }

  /** `try_for_each` over a filter: the first misplaced wildcard is the error. */
  function CheckPlacement(segs: seq<Segment>): Result<(), TopicError> {
    if segs == [] then Ok(())
    else if segs[0] == PLUS || segs[0] == HASH then
      if segs[0] == HASH && |segs| != 1 then Err(MultiWildcardNotTerminal)
      else CheckPlacement(segs[1..])
    else if HasWildcard(segs[0]) then Err(InvalidWildcardUsage)
    else CheckPlacement(segs[1..])
  }

  /** `Topic::new`. */
  function TopicNew(raw: Bytes): Result<Bytes, TopicError> {
    var segs := ValidateSegments(raw);
    if segs.Err? then Err(segs.error)
    else
      var verdict := RejectWildcards(Matchable(segs.value));
      if verdict.Err? then Err(verdict.error) else Ok(raw)
  }

  /** `TopicFilter::new`. */
  function FilterNew(raw: Bytes): Result<Bytes, TopicError> {
    var segs := ValidateSegments(raw);
    if segs.Err? then Err(segs.error)
    else
      var verdict := CheckPlacement(Matchable(segs.value));
      if verdict.Err? then Err(verdict.error) else Ok(raw)
  }

  predicate IsTopic(raw: Bytes) {
    TopicNew(raw).Ok?
  }

  predicate IsFilter(raw: Bytes) {
    FilterNew(raw).Ok?
  }

  /** The bytes inside a `Topic` or `TopicFilter` built by its checking constructor. */
  type Topic = raw: Bytes | IsTopic(raw) witness [97]

  type TopicFilter = raw: Bytes | IsFilter(raw) witness [97]

  // ---- The declarative grammar ----
  // Written with the bytes and limits themselves: 47 is `/`, 43 is `+`, 35 is `#`.

  /** What both kinds of name share, without saying how `raw` was taken apart. */
  ghost predicate Layered(raw: Bytes, segs: seq<Segment>) {
    && raw == Join(segs)
    && |raw| <= 256
    && 1 <= |segs| <= 8
    && (forall i :: 0 <= i < |segs| ==> segs[i] != [] && 47 !in segs[i])
    && segs[0] != [36, 83, 89, 83] // "$SYS"
    && segs != [[36, 71]] // "$G"
  }

  ghost predicate NoWildcards(segs: seq<Segment>) {
    forall i :: 0 <= i < |segs| ==> 43 !in segs[i] && 35 !in segs[i]
  }

  /** Wildcards fill a whole segment, and `#` only the last one. */
  ghost predicate WildcardsPlaced(segs: seq<Segment>) {
    forall i :: 0 <= i < |segs| && (43 in segs[i] || 35 in segs[i]) ==>
      segs[i] == [43] || (segs[i] == [35] && i == |segs| - 1)
  }

  ghost predicate TopicGrammar(raw: Bytes) {
    exists segs :: Layered(raw, segs) && NoWildcards(segs)
  }

  ghost predicate FilterGrammar(raw: Bytes) {
    exists segs :: Layered(raw, segs) && WildcardsPlaced(segs)
  }
}
