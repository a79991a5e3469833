/**
  The decoder against a declarative scan, its independence of how bytes arrive,
  and the round trip of whole streams of messages.
 */
module FramingProofs {
  import opened Common
  import opened Framing

  lemma {:induction false} Assoc<T>(a: seq<T>, b: seq<T>, c: seq<T>)
    ensures a + b + c == a + (b + c)
  {
  }

  lemma {:induction false} NilConcat<T>(a: seq<T>)
    ensures [] + a == a && a + [] == a
  {
  }

  // ---- The declarative scan ----

  /** A header the decoder would take stands at offset `i`. */
  predicate Plausible(peer: Peer, buf: Bytes, i: nat) {
    && i + 5 <= |buf|
    && Inbound(peer, buf[i]).Some?
    && GetU32(buf[i + 1..i + 5]) <= 1_048_576
  }

  /** Where the scan stops: at the leftmost plausible header, or where no header fits any more. */
  ghost predicate StopsAt(peer: Peer, buf: Bytes, i: nat) {
    && (i == 0 || i + 5 <= |buf| + 1)
    && (forall j :: 0 <= j < i ==> !Plausible(peer, buf, j))
    && (i + 5 > |buf| || Plausible(peer, buf, i))
  }

  /** A plausible header stands at offset `i` with its whole payload behind it. */
  predicate Complete(peer: Peer, buf: Bytes, i: nat) {
    Plausible(peer, buf, i) && i + 5 + GetU32(buf[i + 1..i + 5]) <= |buf|
  }

  /** Decoding at a known stop: take the complete frame there, or wait with the buffer starting there. */
  ghost function DecodedAt<P>(peer: Peer, codec: PayloadCodec<P>, buf: Bytes, i: nat): Outcome<P>
    requires i <= |buf|
  {
    if Complete(peer, buf, i) then
      var length := GetU32(buf[i + 1..i + 5]);
      var body := i + 5;
      var command := Inbound(peer, buf[i]).value;
      var event := match codec.decode(command, buf[body..body + length])
        case Some(contents) => Delivered(Frame(command, contents))
        case None => Rejected;
      Outcome(Some(event), buf[body + length..])
    else Outcome(None, buf[i..])
  }

  lemma {:induction false} PlausibleShift(peer: Peer, buf: Bytes, i: nat)
    requires 0 < |buf|
    ensures Plausible(peer, buf[1..], i) <==> Plausible(peer, buf, i + 1)
    ensures Complete(peer, buf[1..], i) <==> Complete(peer, buf, i + 1)
  {
    if i + 1 + 5 <= |buf| {
      assert buf[1..][i + 1..i + 5] == buf[i + 2..i + 6];
    }
  }

  lemma {:induction false} StopShift(peer: Peer, buf: Bytes, i: nat)
    requires StopsAt(peer, buf, i) && i > 0
    ensures StopsAt(peer, buf[1..], i - 1)
  {
    PlausibleShift(peer, buf, i - 1);
    forall j | 0 <= j < i - 1
      ensures !Plausible(peer, buf[1..], j)
    {
      PlausibleShift(peer, buf, j);
    }
  }

  lemma {:induction false} StopExists(peer: Peer, buf: Bytes) returns (i: nat)
    ensures StopsAt(peer, buf, i)
    decreases |buf|
  {
    i := 0;
    while i + 5 <= |buf| && !Plausible(peer, buf, i)
      invariant i == 0 || i + 5 <= |buf| + 1
      invariant forall j :: 0 <= j < i ==> !Plausible(peer, buf, j)
    {
      i := i + 1;
    }
  }

  lemma {:induction false} DecodedAtShift<P>(peer: Peer, codec: PayloadCodec<P>, buf: Bytes, i: nat)
    requires 0 < i <= |buf|
    ensures DecodedAt(peer, codec, buf[1..], i - 1) == DecodedAt(peer, codec, buf, i)
  {
    PlausibleShift(peer, buf, i - 1);
    var tail := buf[1..];
    if Complete(peer, buf, i) {
      var length := GetU32(buf[i + 1..i + 5]);
      assert tail[i..i + 4] == buf[i + 1..i + 5];
      assert tail[i + 4..i + 4 + length] == buf[i + 5..i + 5 + length];
      assert tail[i + 4 + length..] == buf[i + 5 + length..];
    } else {
      assert tail[i - 1..] == buf[i..];
    }
  }

  /** At the front of the buffer, a decode step skips one byte exactly if no plausible header is there. */
  lemma {:induction false} DecodedHere<P>(peer: Peer, codec: PayloadCodec<P>, buf: Bytes)
    ensures Decoded(peer, codec, buf) ==
            if |buf| >= 5 && !Plausible(peer, buf, 0) then Decoded(peer, codec, buf[1..])
            else DecodedAt(peer, codec, buf, 0)
  {
    assert buf[0..] == buf;
  }

  /** The retry loop does what the scan says: drop everything before the stop, and decode there. */
  lemma {:induction false} DecodedIsScan<P>(peer: Peer, codec: PayloadCodec<P>, buf: Bytes, i: nat)
    requires StopsAt(peer, buf, i)
    ensures Decoded(peer, codec, buf) == DecodedAt(peer, codec, buf, i)
    decreases |buf|
  {
    DecodedHere(peer, codec, buf);
    if i > 0 {
      assert !Plausible(peer, buf, 0);
      StopShift(peer, buf, i);
      DecodedIsScan(peer, codec, buf[1..], i - 1);
      DecodedAtShift(peer, codec, buf, i);
    }
  }

  /** Nothing is lost or invented: dropped bytes, header, payload and rest make up the buffer. */
  lemma {:induction false} Conservation<P>(peer: Peer, codec: PayloadCodec<P>, buf: Bytes)
    returns (dropped: Bytes, header: Bytes, payload: Bytes)
    ensures var r := Decoded(peer, codec, buf);
            && buf == dropped + header + payload + r.rest
            && (r.event.None? ==> header == [] && payload == [])
            && (r.event.Some? ==>
                  && |header| == 5 && Inbound(peer, header[0]).Some?
                  && GetU32(header[1..]) == |payload| <= 1_048_576
                  && var command := Inbound(peer, header[0]).value;
                     match codec.decode(command, payload)
                     case Some(body) => r.event.value == Delivered(Frame(command, body))
                     case None => r.event.value == Rejected)
  {
    var i := StopExists(peer, buf);
    DecodedIsScan(peer, codec, buf, i);
    dropped, header, payload := buf[..i], [], [];
    if Complete(peer, buf, i) {
      var length := GetU32(buf[i + 1..i + 5]);
      header, payload := buf[i..i + 5], buf[i + 5..i + 5 + length];
      assert header[1..] == buf[i + 1..i + 5] && header[0] == buf[i];
      FourPieces(buf, i, i + 5, i + 5 + length);
    }
  }

  lemma {:induction false} FourPieces(buf: Bytes, i: nat, j: nat, k: nat)
    requires i <= j <= k <= |buf|
    ensures buf == buf[..i] + buf[i..j] + buf[j..k] + buf[k..]
  {
  }

  /** A decoder that waits keeps less than one maximal frame, and waiting again changes nothing. */
  lemma {:induction false} WaitingIsBounded<P>(peer: Peer, codec: PayloadCodec<P>, buf: Bytes)
    requires Decoded(peer, codec, buf).event.None?
    ensures |Decoded(peer, codec, buf).rest| < 5 + 1_048_576
    ensures var rest := Decoded(peer, codec, buf).rest; Decoded(peer, codec, rest) == Outcome(None, rest)
    decreases |buf|
  {
    if |buf| >= 5 && !Plausible(peer, buf, 0) {
      WaitingIsBounded(peer, codec, buf[1..]);
    }
  }

  // ---- Independence of chunking ----

  lemma {:induction false} PlausiblePrefix(peer: Peer, a: Bytes, b: Bytes)
    requires |a| >= 5
    ensures Plausible(peer, a + b, 0) <==> Plausible(peer, a, 0)
    ensures (a + b)[1..5] == a[1..5]
  {
  }

  lemma {:induction false} CompletePrefix<P>(peer: Peer, codec: PayloadCodec<P>, a: Bytes, b: Bytes)
    requires Complete(peer, a, 0)
    ensures var r := Decoded(peer, codec, a);
            r.event.Some? && Decoded(peer, codec, a + b) == Outcome(r.event, r.rest + b)
  {
    PlausiblePrefix(peer, a, b);
    var length := GetU32(a[1..5]);
    assert (a + b)[5..5 + length] == a[5..5 + length];
    assert (a + b)[5 + length..] == a[5 + length..] + b;
  }

  lemma {:induction false} SkippedPrefix<P>(peer: Peer, codec: PayloadCodec<P>, a: Bytes, b: Bytes)
    requires |a| >= 5 && !Plausible(peer, a, 0)
    ensures Decoded(peer, codec, a) == Decoded(peer, codec, a[1..])
    ensures Decoded(peer, codec, a + b) == Decoded(peer, codec, a[1..] + b)
  {
    PlausiblePrefix(peer, a, b);
    DecodedHere(peer, codec, a);
    DecodedHere(peer, codec, a + b);
    assert (a + b)[1..] == a[1..] + b;
  }

  lemma {:induction false} WaitsWhole<P>(peer: Peer, codec: PayloadCodec<P>, a: Bytes)
    requires !Complete(peer, a, 0) && (|a| < 5 || Plausible(peer, a, 0))
    ensures Decoded(peer, codec, a) == Outcome(None, a)
  {
    DecodedHere(peer, codec, a);
    assert a[0..] == a;
  }

  /** More bytes behind the buffer change neither a finished decode nor what a waiting one dropped. */
  lemma {:induction false} DecodedPrefix<P>(peer: Peer, codec: PayloadCodec<P>, a: Bytes, b: Bytes)
    ensures var r := Decoded(peer, codec, a);
            Decoded(peer, codec, a + b) ==
            if r.event.Some? then Outcome(r.event, r.rest + b) else Decoded(peer, codec, r.rest + b)
    decreases |a|
  {
    if Complete(peer, a, 0) {
      CompletePrefix(peer, codec, a, b);
    } else if |a| >= 5 && !Plausible(peer, a, 0) {
      SkippedPrefix(peer, codec, a, b);
      DecodedPrefix(peer, codec, a[1..], b);
    } else {
      WaitsWhole(peer, codec, a);
    }
  }

  /** Draining a longer buffer is draining its front, then what that left with the rest behind it. */
  lemma {:induction false} DrainedSplit<P>(peer: Peer, codec: PayloadCodec<P>, a: Bytes, b: Bytes)
    ensures var front := Drained(peer, codec, a);
            var back := Drained(peer, codec, front.rest + b);
            Drained(peer, codec, a + b) == Stream(front.events + back.events, back.rest)
    decreases |a|
  {
    var r := Decoded(peer, codec, a);
    DecodedPrefix(peer, codec, a, b);
    if r.event.Some? {
      DrainedSplit(peer, codec, r.rest, b);
      var front := Drained(peer, codec, r.rest);
      Assoc([r.event.value], front.events, Drained(peer, codec, front.rest + b).events);
    } else {
      NilConcat(Drained(peer, codec, r.rest + b).events);
    }
  }

  /** What a drain leaves is quiet: less than a maximal frame, and draining it again does nothing. */
  lemma {:induction false} DrainedRest<P>(peer: Peer, codec: PayloadCodec<P>, buf: Bytes)
    ensures var rest := Drained(peer, codec, buf).rest;
            Drained(peer, codec, rest) == Stream([], rest) && |rest| < 5 + 1_048_576
    decreases |buf|
  {
    var r := Decoded(peer, codec, buf);
    if r.event.Some? {
      DrainedRest(peer, codec, r.rest);
    } else {
      WaitingIsBounded(peer, codec, buf);
    }
  }

  /** Cutting a stream into chunks, anywhere, changes neither the events nor what is left over. */
  lemma {:induction false} FedFrom<P>(peer: Peer, codec: PayloadCodec<P>, buf: Bytes, chunks: seq<Bytes>)
    requires Drained(peer, codec, buf) == Stream([], buf)
    ensures Fed(peer, codec, buf, chunks) == Drained(peer, codec, buf + Concat(chunks))
    decreases chunks
  {
    if chunks == [] {
      NilConcat(buf);
    } else {
      var now := Drained(peer, codec, buf + chunks[0]);
      DrainedRest(peer, codec, buf + chunks[0]);
      FedFrom(peer, codec, now.rest, chunks[1..]);
      FedStep(peer, codec, buf, chunks);
    }
  }

  lemma {:induction false} FedStep<P>(peer: Peer, codec: PayloadCodec<P>, buf: Bytes, chunks: seq<Bytes>)
    requires chunks != []
    requires var rest := Drained(peer, codec, buf + chunks[0]).rest;
             Fed(peer, codec, rest, chunks[1..]) == Drained(peer, codec, rest + Concat(chunks[1..]))
    ensures Fed(peer, codec, buf, chunks) == Drained(peer, codec, buf + Concat(chunks))
  {
    DrainedSplit(peer, codec, buf + chunks[0], Concat(chunks[1..]));
    Assoc(buf, chunks[0], Concat(chunks[1..]));
  }

  /** Decoding is independent of chunking, from an empty buffer on. */
  lemma {:induction false} ChunkingIrrelevant<P>(peer: Peer, codec: PayloadCodec<P>, chunks: seq<Bytes>)
    ensures Fed(peer, codec, [], chunks) == Drained(peer, codec, Concat(chunks))
  {
    FedFrom(peer, codec, [], chunks);
    NilConcat(Concat(chunks));
  }

  /** After any run of feeds the buffer is shorter than one maximal frame. */
  lemma {:induction false} FedIsBounded<P>(peer: Peer, codec: PayloadCodec<P>, chunks: seq<Bytes>)
    ensures |Fed(peer, codec, [], chunks).rest| < 5 + 1_048_576
  {
    ChunkingIrrelevant(peer, codec, chunks);
    DrainedRest(peer, codec, Concat(chunks));
  }

  // ---- Round trips ----

  lemma {:induction false} U32RoundTrip(n: U32)
    ensures GetU32(PutU32(n)) == n
  {
  }

  /** At the first byte where they differ, `a` is smaller. */
  ghost predicate Precedes(a: Bytes, b: Bytes)
    requires |a| == |b|
  {
    exists i :: 0 <= i < |a| && a[i] < b[i] && forall j :: 0 <= j < i ==> a[j] == b[j]
  }

  /** Lengths are big-endian: numbers compare as their four bytes do in wire order. */
  lemma {:induction false} BigEndianOrder(a: Bytes, b: Bytes)
    requires |a| == |b| == 4
    ensures GetU32(a) < GetU32(b) <==> Precedes(a, b)
  {
    var first := if a[0] != b[0] then 0 else if a[1] != b[1] then 1 else if a[2] != b[2] then 2 else 3;
    assert forall j :: 0 <= j < first ==> a[j] == b[j];
    assert a[first] < b[first] ==> Precedes(a, b);
  }

  /**
    Which command each byte is: the server reads bytes 1 to 4, the client reads 0 and 5,
    and every command is sent with the byte it is read by, by exactly one reader.
   */
  lemma {:induction false} InboundBytes(b: Byte, c: Command)
    ensures Inbound(Server, 1) == Some(Connect) && Inbound(Server, 2) == Some(Publish)
    ensures Inbound(Server, 3) == Some(Subscribe) && Inbound(Server, 4) == Some(UnSubscribe)
    ensures Inbound(Client, 0) == Some(Info) && Inbound(Client, 5) == Some(Message)
    ensures Inbound(Server, b).Some? <==> 1 <= b <= 4
    ensures Inbound(Client, b).Some? <==> b == 0 || b == 5
    ensures forall peer :: Inbound(peer, b).Some? ==> CommandByte(Inbound(peer, b).value) == b
    ensures Accepts(Server, c) <==> !Accepts(Client, c)
  {
  }

  /** An encoded frame is taken whole at its own boundary iff the peer accepts it and it is not oversized. */
  lemma {:induction false} FrameTakenIff<P>(peer: Peer, codec: PayloadCodec<P>, item: Frame<P>, tail: Bytes)
    requires EncodeFrame(codec, item).Ok?
    ensures Complete(peer, EncodeFrame(codec, item).value + tail, 0) <==>
            Accepts(peer, item.command) && |codec.encode(item).value| <= 1_048_576
    ensures var payload := codec.encode(item).value; var buf := EncodeFrame(codec, item).value + tail;
            Complete(peer, buf, 0) ==>
              && Decoded(peer, codec, buf).rest == tail
              && match codec.decode(item.command, payload)
                 case Some(body) => Decoded(peer, codec, buf).event == Some(Delivered(Frame(item.command, body)))
                 case None => Decoded(peer, codec, buf).event == Some(Rejected)
  {
    var payload := codec.encode(item).value;
    var buf := EncodeFrame(codec, item).value + tail;
    U32RoundTrip(|payload|);
    assert buf[1..5] == PutU32(|payload|);
    if Complete(peer, buf, 0) {
      DecodedHere(peer, codec, buf);
      assert buf[5..5 + |payload|] == payload;
      assert buf[5 + |payload|..] == tail;
    }
  }

  /** Bytes that are not commands of this peer. */
  ghost predicate Noise(peer: Peer, bytes: Bytes) {
    forall i :: 0 <= i < |bytes| ==> Inbound(peer, bytes[i]).None?
  }

  /** Noise in front of a full header is skipped exactly. */
  lemma {:induction false} NoiseSkipped<P>(peer: Peer, codec: PayloadCodec<P>, noise: Bytes, buf: Bytes)
    requires Noise(peer, noise) && |buf| >= 5
    ensures Decoded(peer, codec, noise + buf) == Decoded(peer, codec, buf)
    decreases |noise|
  {
    if noise == [] {
      assert noise + buf == buf;
    } else {
      assert !Plausible(peer, noise + buf, 0);
      DecodedHere(peer, codec, noise + buf);
      assert (noise + buf)[1..] == noise[1..] + buf;
      NoiseSkipped(peer, codec, noise[1..], buf);
    }
  }

  /** Messages on the wire, each behind some noise. */
  function Wire<P>(codec: PayloadCodec<P>, items: seq<(Bytes, Frame<P>)>): Bytes {
    if items == [] then [] else items[0].0 + Appended(codec, items[0].1) + Wire(codec, items[1..])
  }

  function AllDelivered<P>(items: seq<(Bytes, Frame<P>)>): seq<Event<P>> {
    if items == [] then [] else [Delivered(items[0].1)] + AllDelivered(items[1..])
  }

  ghost predicate Transmittable<P>(peer: Peer, codec: PayloadCodec<P>, items: seq<(Bytes, Frame<P>)>) {
    forall i :: 0 <= i < |items| ==> Noise(peer, items[i].0) && Sendable(peer, codec, items[i].1)
  }

  /** One message behind noise is delivered, and the drain goes on behind it. */
  lemma {:induction false} MessageDrains<P>(peer: Peer, codec: PayloadCodec<P>, noise: Bytes, item: Frame<P>,
                                            more: Bytes)
    requires Noise(peer, noise) && Sendable(peer, codec, item)
    ensures Drained(peer, codec, noise + Appended(codec, item) + more) ==
            Stream([Delivered(item)] + Drained(peer, codec, more).events, Drained(peer, codec, more).rest)
  {
    FrameTakenIff(peer, codec, item, more);
    NoiseSkipped(peer, codec, noise, Appended(codec, item) + more);
    Assoc(noise, Appended(codec, item), more);
  }

  /** The messages come out in order, whatever follows them. */
  lemma {:induction false} WireDrains<P>(peer: Peer, codec: PayloadCodec<P>, items: seq<(Bytes, Frame<P>)>, tail: Bytes)
    requires Transmittable(peer, codec, items)
    ensures var after := Drained(peer, codec, tail);
            Drained(peer, codec, Wire(codec, items) + tail) == Stream(AllDelivered(items) + after.events, after.rest)
    decreases items
  {
    var after := Drained(peer, codec, tail);
    if items == [] {
      NilConcat(tail);
      NilConcat(after.events);
    } else {
      var (noise, item) := items[0];
      var rest := Wire(codec, items[1..]);
      WireDrains(peer, codec, items[1..], tail);
      MessageDrains(peer, codec, noise, item, rest + tail);
      Assoc(noise + Appended(codec, item), rest, tail);
      Assoc([Delivered(item)], AllDelivered(items[1..]), after.events);
    }
  }

  /** Whole streams round trip, however they are cut into chunks, and leave the buffer empty. */
  lemma {:induction false} StreamRoundTrip<P>(peer: Peer, codec: PayloadCodec<P>,
                                              items: seq<(Bytes, Frame<P>)>, chunks: seq<Bytes>)
    requires Transmittable(peer, codec, items)
    requires Concat(chunks) == Wire(codec, items)
    ensures Fed(peer, codec, [], chunks) == Stream(AllDelivered(items), [])
  {
    ChunkingIrrelevant(peer, codec, chunks);
    WireDrains(peer, codec, items, []);
    NilConcat(Wire(codec, items));
    NilConcat(AllDelivered(items));
  }
}
