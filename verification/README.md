# Ocypode: subscription routing and framing, verified

Ocypode is a publish/subscribe broker. This project models the three places where
its behaviour is hard to see from one function at a time, and proves what they
promise together.

- **The topic grammar** (`Topics`, `TopicProofs`, `TopicErrors`): which byte strings
  are accepted as publish topics and as subscription filters, and which error the
  others get.
- **The subscription router** (`Matching`, `Trie`, `TrieShape`, `TrieSearch`,
  `TrieSize`, `Placement`, `Cursors`, `Pruning`, `StackSearch`, `Runs`,
  `Deliveries`, `Moves`, `Routers`): a wildcard trie beside a flat index from subscription
  key to filter. The trie must answer like a scan of all live subscriptions.
- **The framing codec** (`Framing`, `FramingProofs`, `Codec`): a five-byte header, a
  1 MiB limit, and a decoder that resynchronises byte by byte on a buffer that
  fills in arbitrary pieces.

`dafny verify dfyconfig.toml` checks the whole project.

## How the model reads

`Router` is a class whose `root` and `index` are updated in place. A Rust tree owns
its nodes, so a tree is a value here; a `&mut Node` reached by stepping through
child lists is the list of child indices from the root (`Cursors`), and writing
through it replaces the subtree there. The loops of insert, search and delete are
loops, proved against recursive functions on trees (`Planted`, `Answer`,
`Uprooted`), and those functions are proved against what a tree holds: `SubsAt`,
the subscriptions stored under a filter path, and `Holds`, one entry of it.
`Router` carries its history of inserts and deletes as ghost state, so that `Valid`
means "reached by this run" and what is proved of every run (`Runs`, `Deliveries`)
holds of every router.

One decoder serves both peers, as the two `decode` bodies are the same but for the
commands they accept. The protobuf payload codec is a pair of function values.
Nothing is assumed of it, except, in the round trips, that it reads back the
messages that are actually sent (`Faithful`).

Two plain reference maps stand against trie and index. `LiveRun` remembers, per key,
the latest filter and sender. `HeldRun` remembers every pair of key and filter with
its sender: an insert adds its pair, a delete removes only the pair under which the
key is live. A run is `Tidy` if every pair still remembered is a live key under its
latest filter, and `Disciplined` if every insert found its key not indexed, or
indexed with the same filter.

## Main results

1. After every run, whatever it inserts, the index is the latest filter of each live
   key and the trie holds exactly the pairs of `HeldRun`. A search for any accepted
   topic collects exactly the pairs whose filter matches, each once, and misses no
   live subscription (`Runs.RunSound`, `Runs.RunSearchHeld`, `Moves.RunNeverMisses`).
   After a tidy run it returns exactly the live subscriptions whose filter matches,
   each once, with the latest sender (`Deliveries.RunSearch`, `Routers.Router.Search`).
2. Inserting a live key again under another filter leaves the old trie entry behind,
   so search is not the flat scan after every run (`Moves.MovedFromAToB` is the
   smallest case). The exact conditions: after a run, every search is the flat scan of
   the live subscriptions if and only if the run is tidy (`Moves.RunExactIff`); it is
   so at every moment of a run if and only if the run is disciplined
   (`Moves.DisciplinedIff`); and after any run, an insert makes or keeps search exact
   if and only if its key is held under no other filter and no other pair is stale
   (`Moves.InsertStaysExactIff`). The two conditions on runs differ: `Moves.MovedAndBack`
   is a run that breaks the rule and ends exact.
3. Deleting removes exactly one entry although recorded child indices are reused
   while deeper nodes vanish; the early returns are unreachable
   (`Routers.Router.Delete`, `Routers.Router.Uproot`). Insert followed by delete
   restores the router to the same value, sibling order and flags included, if and
   only if the key was not indexed and not already held under this filter
   (`Deliveries.InsertThenDelete`).
4. The nodes are exactly the prefixes of the filters held, at most eight per pair of
   key and filter held, and at most eight per live subscription after a tidy run; a run
   ends in the fresh router if and only if it leaves no pair behind; tidy histories
   with the same live set give the same nodes (`Runs.RunNodes`, `Deliveries.RunSize`,
   `Deliveries.FreshIff`, `Deliveries.DeleteAll`, `Deliveries.SameLiveSameTrie`).
5. A search pops at most 2^(n+1) - 1 stack entries for n segments, at most 511 for
   an accepted topic, however many subscriptions there are (`Routers.SearchTrie`).
6. Decoding is independent of how a stream is cut into chunks, refines a
   declarative scan for the leftmost plausible header, conserves bytes, keeps less
   than one maximal frame, and gives back whole streams of messages in order, with
   noise between them (`FramingProofs`).
7. The two constructors accept exactly a declarative grammar, and reject with an error
   if and only if the name has the fault, or the first misplaced wildcard, that the
   error stands for (`TopicProofs`, `TopicErrors`).

## Where code and documentation differ

- The protocol definition says that `#` matches one or more levels
  (proto/ocypode/pubsub/v1/pubsub.proto:96); the code, its comment and its test
  match zero or more (crates/server/src/router.rs:122-124 and :374). The model
  follows the code.
- The protocol definition forbids spaces and special characters in topics
  (proto/ocypode/pubsub/v1/pubsub.proto:76-77); validation does not check for them,
  and neither does the model.
- The encoder has no 1 MiB limit, only the 32-bit one; the decoder has. The decoder
  takes an encoded frame at its own boundary if and only if the peer accepts the
  command and the payload is within the limit (`FramingProofs.FrameTakenIff`).

## Model

| member | source | states |
|---|---|---|
| `TopicProofs.JoinSplit` | crates/server/src/topic.rs:115 | joining the pieces of a split with `/` gives back the bytes |
| `TopicProofs.SplitJoin` | crates/server/src/topic.rs:115 | splitting joined slash-free segments gives back the segments |
| `TopicProofs.ValidateSegmentsIff` | crates/server/src/topic.rs:97-130 | the shared checks succeed with these segments iff the name is their join, within 256 bytes and 1 to 8 non-empty layers, first not `$SYS`, not `$G` alone |
| `TopicProofs.SkippingGlobalPrefix` | crates/server/src/topic.rs:136-161 | leaving out a leading `$G` changes neither wildcard verdict compared with checking every segment |
| `TopicProofs.TopicNewIff` | crates/server/src/topic.rs:32-36 | `Topic::new` accepts exactly the topic grammar, written with its bytes and limits (no byte 43 or 35, that is no `+` or `#`), and keeps the bytes |
| `TopicProofs.FilterNewIff` | crates/server/src/topic.rs:73-77 | `TopicFilter::new` accepts exactly the filter grammar, written with its bytes and limits (`+` and `#` fill a segment, `#` last), and keeps the bytes |
| `TopicProofs.SegmentsLaw` | crates/server/src/topic.rs:42-44 | for all bytes: the segments around a slash are those before it and those after it, and slash-free bytes are one segment, or none if empty |
| `TopicProofs.SegmentsOfAccepted` | crates/server/src/topic.rs:83-85 | for an accepted name the empty-segment filter removes nothing, and the segments join back to the bytes |
| `TopicProofs.SegmentsInjective` | crates/server/src/topic.rs:42-44 | accepted names with the same segments are the same bytes, so distinct filters end at distinct trie nodes |
| `TopicProofs.TopicsAreWildcardFreeFilters` | crates/server/src/topic.rs:132-161 | the accepted topics are exactly the accepted filters in which neither byte 43 (`+`) nor byte 35 (`#`) occurs |
| `TopicErrors.ValidateSegmentsError` | crates/server/src/topic.rs:97-130 | the shared checks report an error iff the bytes have that fault: ends, length, two slashes in a row, number of slashes, first layer |
| `TopicErrors.TopicNewError` | crates/server/src/topic.rs:140-144 | a publish topic is rejected for its name fault, or, having none, iff byte 43 (`+`) or 35 (`#`) occurs anywhere |
| `TopicErrors.FilterNewError` | crates/server/src/topic.rs:146-161 | a filter is rejected with an error iff its name has that fault, or its name has none and the error is that of its first misplaced wildcard: a bare `#` that is not last, or a wildcard mixed into a segment |
| `Matching.MatchIff` | crates/server/src/router.rs:121-146 | recursive matching agrees with a position-by-position definition: `+` takes one segment, a final `#` zero or more |
| `Matching.LiteralFilterMatchesItself` | crates/server/src/router.rs:141-145 | a filter without wildcards matches a topic iff their bytes are equal |
| `Matching.SomeTopicMatches` | crates/server/src/topic.rs:146-161 | every accepted filter is matched by some accepted topic |
| `Trie.Position` | crates/server/src/router.rs:98 | the first child with the level, or the length when there is none |
| `TrieShape.PlantedSubs` | crates/server/src/router.rs:88-109 | inserting sets one key's sender at one path and leaves every other path and key as it was |
| `TrieShape.PlantedWellFormed` | crates/server/src/router.rs:92-106 | inserting keeps sibling levels distinct, flags equal to the presence of `+` and `#` children, lists non-empty, no dead nodes, `#` nodes childless |
| `TrieShape.UprootedSubs` | crates/server/src/router.rs:171-204 | deleting removes one key at one path and leaves every other entry as it was |
| `TrieShape.UprootedWellFormed` | crates/server/src/router.rs:179-204 | deleting keeps the same structural invariant |
| `TrieShape.UprootPlanted` | crates/server/src/router.rs:179-204 | deleting what was just inserted gives back the identical tree |
| `TrieSearch.AnswerCount` | crates/server/src/router.rs:119-146 | what search collects contains each held entry whose path matches exactly once and no other entry |
| `Pruning.Climb` | crates/server/src/router.rs:179-200 | with deeper levels done, the recorded index still names the child, and pruning it completes this level |
| `Pruning.BreakIsDone` | crates/server/src/router.rs:201-203 | where the pruning loop breaks, no level above needs pruning |
| `StackSearch.PopPays` | crates/server/src/router.rs:141-145 | distinct siblings push at most two frames, which cost at least one less than the frame popped |
| `StackSearch.CostOfTopic` | crates/server/src/router.rs:119-121 | for at most eight segments the bound is at most 511 |
| `Runs.RunSound` | crates/server/src/router.rs:81-207 | after every run the trie is well formed and holds only paths of accepted filters, the index is the latest filter of each live key, and the trie holds each live key there with its latest sender |
| `Runs.RunTracks` | crates/server/src/router.rs:81-207 | after every run, moves included, the trie holds exactly the pairs of key and filter that the plain bookkeeping map holds, with their senders |
| `Runs.RunSearchHeld` | crates/server/src/router.rs:113-149 | after every run search collects exactly the scan of that bookkeeping map, each entry once |
| `Runs.IndexedIsReached` | crates/server/src/router.rs:162-165 | after every run the node of an indexed filter exists, so the early returns of delete are not taken |
| `Runs.RunSearchExact` | crates/server/src/router.rs:113-149 | after every run search collects exactly the matching entries the trie holds, each once |
| `Runs.RunNodes` | crates/server/src/router.rs:97-106 | after every run a path names a node iff it is empty or a prefix of a filter still held; nodes and paths are equally many |
| `Runs.RunRepresentsIff` | crates/server/src/router.rs:108-110 | index and trie are the image of the map from live key to latest filter and sender iff the run is tidy |
| `Runs.DisciplinedTidy` | crates/server/src/router.rs:108-110 | a run whose inserts find their key not indexed, or indexed with the same filter, is tidy |
| `Deliveries.RunSearch` | crates/server/src/router.rs:113-149 | after every tidy run search returns, as a multiset, the flat scan of the live subscriptions: client, subscription id and the very sender of the latest insert |
| `Deliveries.RunSearchMember` | crates/server/src/router.rs:215-219 | field by field: something is returned iff it carries the client, the subscription id and the latest sender of a live key whose filter matches |
| `Deliveries.SameLiveSameAnswer` | crates/server/src/router.rs:113-149 | two tidy histories with the same live subscriptions answer alike |
| `Deliveries.SameLiveSameTrie` | crates/server/src/router.rs:81-207 | they also give the same nodes with the same subscriptions, up to sibling order |
| `Deliveries.LiteralDelivery` | crates/server/src/router.rs:141-145 | after a tidy run a live wildcard-free subscription is returned iff the topic has the same bytes |
| `Moves.RunNeverMisses` | crates/server/src/router.rs:113-149 | after every run a search returns at least the flat scan of the live subscriptions |
| `Moves.RunExactIff` | crates/server/src/router.rs:81-207 | after a run every search is the flat scan of the live subscriptions iff the run is tidy |
| `Moves.ExactIffRepresents` | crates/server/src/router.rs:81-207 | searching exactly and index and trie being the image of the live map are the same condition, after every run |
| `Moves.DisciplinedIff` | crates/server/src/router.rs:81-207 | search is the flat scan at every moment of a run iff every insert of the run found its key not indexed or indexed with the same filter |
| `Moves.InsertStaysExactIff` | crates/server/src/router.rs:108-110 | after any run an insert ends with exact search iff its key is held under no other filter and every other pair held is a live key under its latest filter |
| `Moves.NextInsertIff` | crates/server/src/router.rs:108-110 | where search is exact, the next insert keeps it so iff its key is not indexed or indexed with the same filter |
| `Moves.MovedAndBack` | crates/server/src/router.rs:108-110 | a key moved and deleted is not indexed yet search is inexact; coming back under the first filter makes it exact, though the run is not disciplined |
| `Moves.MovedKeyIsFound` | crates/server/src/router.rs:108-110 | a key moved to another filter is still found by every topic that the old filter matches |
| `Moves.MovedFromAToB` | crates/server/src/router.rs:108-110 | concrete case: moved from `a` to `b`, still found under topic `a`, which `b` does not match |
| `Deliveries.InsertThenDelete` | crates/server/src/router.rs:81-207 | insert then delete restores trie and index exactly iff the key was not indexed and not already held under this filter |
| `Deliveries.FreshKeyRoundTrip` | crates/server/src/router.rs:81-207 | after a tidy run this holds for every key that is not live |
| `Deliveries.FreshIff` | crates/server/src/router.rs:73-75 | a run ends in the state of `Router::new` iff it leaves no pair of key and filter in the trie |
| `Deliveries.NothingLiveIsFresh` | crates/server/src/router.rs:73-75 | a tidy run that leaves nothing live ends in the state of `Router::new` |
| `Deliveries.DeleteAll` | crates/server/src/router.rs:151-207 | after a tidy run, deleting every live key, in any order, gives back the state of `Router::new` |
| `Deliveries.RunSize` | crates/server/src/router.rs:179-204 | besides the root there are at most eight nodes per pair of key and filter held, and at most eight per live key after a tidy run |
| `Routers.ListSubscriptions` | crates/server/src/router.rs:215-220 | iterating a subscription map lists, once for each key, its client, its subscription id and its sender |
| `Routers.CollectNode` | crates/server/src/router.rs:210-234 | collecting a node lists its own entries once each, and for each queue group, once, the members of that group |
| `TrieShape.GrownSubs` | crates/server/src/router.rs:97-105 | growing a child changes no entry |
| `TrieShape.GrownLocal` | crates/server/src/router.rs:92-105 | after the insert loop body the flags equal the presence of `+` and `#` children and siblings stay distinct; only the child stepped into may still be empty |
| `Routers.GrowNode` | crates/server/src/router.rs:92-105 | the insert loop body grows the node as those lemmas describe and returns the index of the child for the segment |
| `TrieShape.PrunedSubs` | crates/server/src/router.rs:186-200 | pruning a dead child changes no entry |
| `TrieShape.PrunedLocal` | crates/server/src/router.rs:186-200 | after the pruning loop body the node meets the structural invariant again: flags, distinct siblings, no dead child, no empty list |
| `Routers.RemoveChild` | crates/server/src/router.rs:190-200 | the pruning loop body on a dead child prunes it as those lemmas describe |
| `Routers.PushFollowers` | crates/server/src/router.rs:139-145 | the inner search loop adds exactly the following children's answers to what the stack owes |
| `Routers.CollectMulti` | crates/server/src/router.rs:125-132 | a `#` child is collected whatever segments remain |
| `Routers.Visit` | crates/server/src/router.rs:121-146 | one iteration conserves collected plus owed entries and strictly lowers the potential |
| `Routers.SearchTrie` | crates/server/src/router.rs:113-149 | the stack loop collects the answer of the root within 2^(n+1) - 1 pops |
| `Routers.Router.constructor` | crates/server/src/router.rs:73-75 | a new router has the empty history |
| `Routers.Router.Insert` | crates/server/src/router.rs:81-111 | the run grows by one insert; the index maps the key to the filter; exactly one trie entry is set |
| `Routers.Router.Plant` | crates/server/src/router.rs:88-109 | the walk that grows the trie in place computes the recursive insertion |
| `Routers.Router.Delete` | crates/server/src/router.rs:151-207 | the run grows by one delete; the key leaves the index; exactly its one trie entry goes, nothing if it was not indexed |
| `Routers.Router.Locate` | crates/server/src/router.rs:158-169 | succeeds iff the node exists, recording the child index taken at each level |
| `Routers.Router.Uproot` | crates/server/src/router.rs:171-204 | leaf removal and bottom-up pruning along the recorded indices compute the recursive deletion |
| `Routers.Router.Search` | crates/server/src/router.rs:113-149 | returns the answer of the trie: at least the flat scan of the live subscriptions, exactly it if the history is tidy; no queue groups; at most 511 pops |
| `Framing.Decoded` | crates/server/src/parser.rs:239-283 | one decode call never grows the buffer and shrinks it whenever it produces something |
| `FramingProofs.InboundBytes` | crates/server/src/parser.rs:22-31 | byte 1 is Connect, 2 Publish, 3 Subscribe, 4 UnSubscribe to the server, 0 Info and 5 Message to the client, no other byte is accepted, and every command has exactly one reader |
| `FramingProofs.BigEndianOrder` | crates/server/src/parser.rs:227-230 | lengths compare as their four bytes do in wire order, so with the round trip they are big-endian |
| `FramingProofs.U32RoundTrip` | crates/server/src/parser.rs:294-299 | the length written is the length read, for all 32-bit values |
| `FramingProofs.DecodedIsScan` | crates/server/src/parser.rs:240-281 | decoding drops the bytes before the leftmost accepted header within the limit, takes the frame there if complete, and otherwise waits there |
| `FramingProofs.Conservation` | crates/server/src/parser.rs:245-281 | dropped bytes, header, payload and new buffer make up the old buffer; the event is the frame with whatever contents the payload codec reads, or a rejection iff it reads none |
| `FramingProofs.WaitingIsBounded` | crates/server/src/parser.rs:241-263 | a waiting decoder keeps fewer than 5 bytes plus 1 MiB, and decoding again changes nothing |
| `FramingProofs.DecodedPrefix` | crates/server/src/parser.rs:240-281 | more bytes behind the buffer change neither a finished decode nor what a waiting one dropped |
| `FramingProofs.DrainedSplit` | crates/server/src/parser.rs:239-283 | draining a concatenation is draining the front, then its leftover followed by the rest |
| `FramingProofs.DrainedRest` | crates/server/src/parser.rs:241-263 | what a drain leaves is bounded and draining it again yields nothing |
| `FramingProofs.ChunkingIrrelevant` | crates/server/src/parser.rs:239-283 | feeding any chunks and draining after each yields the same events and leftover as the whole stream at once |
| `FramingProofs.FedIsBounded` | crates/server/src/parser.rs:254-263 | after any run of feeds the buffer is shorter than 5 bytes plus 1 MiB |
| `FramingProofs.FrameTakenIff` | crates/server/src/parser.rs:254-266 | an encoded frame is taken whole at its own boundary iff the peer accepts its command and its payload is at most 1 MiB |
| `FramingProofs.NoiseSkipped` | crates/server/src/parser.rs:245-252 | bytes that are no accepted command are skipped exactly before a header |
| `FramingProofs.WireDrains` | crates/server/src/parser.rs:312-350 | encoded messages with noise between them are delivered in order, whatever follows |
| `FramingProofs.StreamRoundTrip` | crates/server/src/parser.rs:292-302 | however the encoded stream is cut, the peer delivers the messages in order and its buffer ends empty |
| `Codec.Decode` | crates/server/src/parser.rs:239-283 | the in-place retry loop stops where the scan does; the buffer and the event, told by the payload codec, are as the scan says |
| `Codec.Drain` | crates/server/src/parser.rs:239-283 | calling decode until it needs more bytes, rejected payloads being events too, computes the drain of the buffer |
| `Codec.ReadFrames` | crates/server/src/client.rs:122-124 | reading frames until none is left or one is rejected returns exactly the frames before the first rejection, and a rejection leaves the buffer right behind its own frame |
| `Codec.Encode` | crates/server/src/parser.rs:292-302 | succeeds iff the payload encodes to fewer than 2^32 bytes; appends the command byte, four length bytes with the heaviest first, and the payload; a failed call leaves the buffer unchanged |
| `Codec.Send` | crates/server/src/parser.rs:359-369 | encoding messages one after the other appends their frames in order |
| `Codec.SendAndReceive` | crates/server/src/parser.rs:746-770 | messages sent to an empty buffer and drained by a peer that accepts them come back in order, and the buffer ends empty |

## Left out

- QUIC, gRPC, TLS, configuration, metrics and logging: input and output around libraries that are not modelled.
- Handshake, authentication, permissions and frame dispatch: dispatch and delivery are stubs in the source, so only easy claims could be made.
- Protobuf encoding of payloads: a pair of function values; the round trips assume only that the messages sent read back.
- Queue groups: nothing in the source adds to one, so the field, its listing and the pruning condition are kept and proved to stay empty; round-robin delivery is not modelled.
- Concurrent holders of the index handle: the index is a map that only the router changes; a sender is an opaque identity.
- Iteration order of hash maps: lists are compared as multisets.
- Topics built without validation (`Topic::from`): search theorems are for accepted topics.
- Update in place inside tree nodes: trees are values and a borrowed node is an index path, so sharing between nodes is not expressible; Rust ownership excludes it too.
- Buffer capacity and reservation: a buffer is its contents.
- End of stream in the framed reader of the transport library: a reader that has seen its last byte, or an error, is not modelled beyond `Codec.ReadFrames`.
- Display formatting of topics and errors, and the message builders: no behaviour beyond copying fields.
