/** The codecs at work on a byte buffer that they consume and extend in place. */
module Codec {
  import opened Common
  import opened Framing
  import opened FramingProofs

  /** The part of a growable byte buffer that the codecs use. */
  class BytesMut {
    var data: Bytes

    constructor (data: Bytes)
      ensures this.data == data
    {
      this.data := data;
    }

    method Advance(n: nat)
      requires n <= |data|
      modifies this
      ensures data == old(data)[n..]
    {
      data := data[n..];
    }

    method SplitTo(n: nat) returns (front: Bytes)
      requires n <= |data|
      modifies this
      ensures front + data == old(data) && |front| == n
    {
      front := data[..n];
      data := data[n..];
    }

    method Extend(more: Bytes)
      modifies this
      ensures data == old(data) + more
    {
      data := data + more;
    }
  }

  /**
    `decode`: retry one byte further until a plausible header stands at the front
    or none fits, then take the frame or wait. `skipped` is how many bytes it dropped.
   */
  method Decode<P>(peer: Peer, codec: PayloadCodec<P>, incoming: BytesMut)
    returns (event: Option<Event<P>>, ghost skipped: nat)
    modifies incoming
    ensures StopsAt(peer, old(incoming.data), skipped)
    ensures Outcome(event, incoming.data) == DecodedAt(peer, codec, old(incoming.data), skipped)
    ensures Outcome(event, incoming.data) == Decoded(peer, codec, old(incoming.data))
  {
    ghost var all := incoming.data;
    skipped := 0;
    while true
      invariant skipped == 0 || skipped + HEADER_LENGTH <= |all| + 1
      invariant skipped <= |all| && incoming.data == all[skipped..]
      invariant forall j :: 0 <= j < skipped ==> !Plausible(peer, all, j)
      decreases |incoming.data|
    {
      var header := ParseHeader(incoming.data);
      if header.None? {
        DecodedIsScan(peer, codec, all, skipped);
        return None, skipped;
      }
      var (commandByte, payloadLength) := header.value;
      HeaderAt(all, skipped);
      var inbound := Inbound(peer, commandByte);
      if inbound.None? {
        incoming.Advance(1);
        skipped := skipped + 1;
        continue;
      }
      if payloadLength > MAXIMUM_PAYLOAD_BYTES {
        incoming.Advance(1);
        skipped := skipped + 1;
        continue;
      }
      DecodedIsScan(peer, codec, all, skipped);
      var frameLength := HEADER_LENGTH + payloadLength;
      if |incoming.data| < frameLength {
        return None, skipped;
      }
      incoming.Advance(HEADER_LENGTH);
      var payload := incoming.SplitTo(payloadLength);
      TakenAt(peer, codec, all, skipped, payload, incoming.data);
      event := Some(EventOf(codec, inbound.value, payload));
      return;
    }
  }

  /** The header parsed at the front of the buffer is the one at the offset reached. */
  lemma {:induction false} HeaderAt(all: Bytes, i: nat)
    requires i + HEADER_LENGTH <= |all|
    ensures ParseHeader(all[i..]) == Some((all[i], GetU32(all[i + 1..i + 5])))
  {
    assert all[i..][1..5] == all[i + 1..i + 5];
  }

  /** Header and payload consumed: what is left is what the scan leaves. */
  lemma {:induction false} TakenAt<P>(peer: Peer, codec: PayloadCodec<P>, all: Bytes, i: nat,
                                      payload: Bytes, rest: Bytes)
    requires Complete(peer, all, i) && |payload| == GetU32(all[i + 1..i + 5])
    requires payload + rest == all[i..][HEADER_LENGTH..]
    ensures DecodedAt(peer, codec, all, i) ==
            Outcome(Some(EventOf(codec, Inbound(peer, all[i]).value, payload)), rest)
  {
    var body := i + HEADER_LENGTH;
    assert all[i..][HEADER_LENGTH..] == all[body..];
    assert payload == (payload + rest)[..|payload|] && rest == (payload + rest)[|payload|..];
    assert payload == all[body..body + |payload|] && rest == all[body + |payload|..];
  }

  /** Decoding until the codec says that it needs more bytes; a rejected payload is one event among others. */
  method Drain<P>(peer: Peer, codec: PayloadCodec<P>, incoming: BytesMut) returns (events: seq<Event<P>>)
    modifies incoming
    ensures Stream(events, incoming.data) == Drained(peer, codec, old(incoming.data))
  {
    events := [];
    ghost var goal := Drained(peer, codec, incoming.data);
    NilConcat(goal.events);
    while true
      invariant goal.events == events + Drained(peer, codec, incoming.data).events
      invariant goal.rest == Drained(peer, codec, incoming.data).rest
      decreases |incoming.data|
    {
      ghost var before := incoming.data;
      var event, skipped := Decode(peer, codec, incoming);
      if event.None? {
        NilConcat(events);
        return;
      }
      Assoc(events, [event.value], Drained(peer, codec, incoming.data).events);
      events := events + [event.value];
    }
  }

  /** These frames, as events. */
  function AsEvents<P>(frames: seq<Frame<P>>): (events: seq<Event<P>>)
    ensures |events| == |frames|
  {
    seq(|frames|, i requires 0 <= i < |frames| => Delivered(frames[i]))
  }

  /**
    The dispatch loop of a connection: frame after frame, until none is left or one is
    rejected. A rejected payload ends the loop right behind its own frame.
   */
  method ReadFrames<P>(peer: Peer, codec: PayloadCodec<P>, incoming: BytesMut)
    returns (frames: seq<Frame<P>>, failed: bool)
    modifies incoming
    ensures var all := Drained(peer, codec, old(incoming.data));
            if failed
            then all.events == AsEvents(frames) + [Rejected] + Drained(peer, codec, incoming.data).events
                 && all.rest == Drained(peer, codec, incoming.data).rest
            else all == Stream(AsEvents(frames), incoming.data)
  {
    frames := [];
    ghost var all := Drained(peer, codec, incoming.data);
    NilConcat(all.events);
    while true
      invariant all.events == AsEvents(frames) + Drained(peer, codec, incoming.data).events
      invariant all.rest == Drained(peer, codec, incoming.data).rest
      decreases |incoming.data|
    {
      var event, skipped := Decode(peer, codec, incoming);
      if event.None? {
        NilConcat(AsEvents(frames));
        return frames, false;
      }
      Assoc(AsEvents(frames), [event.value], Drained(peer, codec, incoming.data).events);
      if event.value.Rejected? {
        return frames, true;
      }
      SnocEvents(frames, event.value.frame);
      frames := frames + [event.value.frame];
    }
  }

  lemma {:induction false} SnocEvents<P>(frames: seq<Frame<P>>, frame: Frame<P>)
    ensures AsEvents(frames + [frame]) == AsEvents(frames) + [Delivered(frame)]
  {
  }

  /**
    `encode`: append the command byte, the payload length in four bytes with the heaviest
    first, and the payload; or fail and leave the buffer as it was.
   */
  method Encode<P>(codec: PayloadCodec<P>, item: Frame<P>, output: BytesMut) returns (r: Result<(), CodecError>)
    modifies output
    ensures r.Ok? <==> codec.encode(item).Some? && |codec.encode(item).value| < 0x1_0000_0000
    ensures codec.encode(item).None? ==> r == Err(EncodeFailed)
    ensures codec.encode(item).Some? && r.Err? ==> r == Err(InvalidSizeBytes(|codec.encode(item).value|))
    ensures r.Err? ==> output.data == old(output.data)
    ensures r.Ok? ==>
              exists length: Bytes :: |length| == 4
                && |codec.encode(item).value| ==
                   length[0] as int * 0x100_0000 + length[1] as int * 0x1_0000 + length[2] as int * 0x100 + length[3]
                && output.data == old(output.data) + [CommandByte(item.command)] + length + codec.encode(item).value
    ensures output.data == old(output.data) + Appended(codec, item)
  {
    var encoded := codec.encode(item);
    if encoded.None? {
      return Err(EncodeFailed);
    }
    var payload := encoded.value;
    if |payload| >= 0x1_0000_0000 {
      return Err(InvalidSizeBytes(|payload|));
    }
    output.Extend([CommandByte(item.command)]);
    output.Extend(PutU32(|payload|));
    output.Extend(payload);
    assert output.data == old(output.data) + Appended(codec, item);
    return Ok(());
  }

  /** These messages with nothing between them. */
  ghost function Quiet<P>(items: seq<Frame<P>>): (sent: seq<(Bytes, Frame<P>)>)
    ensures |sent| == |items|
  {
    seq(|items|, i requires 0 <= i < |items| => ([], items[i]))
  }

  /** Encoding messages one after the other puts their frames on the wire in order. */
  method Send<P>(codec: PayloadCodec<P>, items: seq<Frame<P>>, wire: BytesMut)
    modifies wire
    ensures wire.data == old(wire.data) + Wire(codec, Quiet(items))
  {
    NilConcat(wire.data);
    for n := 0 to |items|
      invariant wire.data == old(wire.data) + Wire(codec, Quiet(items[..n]))
    {
      var r := Encode(codec, items[n], wire);
      WireSnoc(codec, Quiet(items[..n]), items[n]);
      Assoc(old(wire.data), Wire(codec, Quiet(items[..n])), Appended(codec, items[n]));
      assert Quiet(items[..n + 1]) == Quiet(items[..n]) + [([], items[n])];
    }
    assert items[..|items|] == items;
  }

  /** Sending messages that the peer accepts and draining at the peer gives them back in order. */
  method SendAndReceive<P>(peer: Peer, codec: PayloadCodec<P>, items: seq<Frame<P>>, wire: BytesMut)
    returns (events: seq<Event<P>>)
    requires wire.data == []
    requires forall i :: 0 <= i < |items| ==> Sendable(peer, codec, items[i])
    modifies wire
    ensures wire.data == []
    ensures |events| == |items| && forall i :: 0 <= i < |items| ==> events[i] == Delivered(items[i])
  {
    Send(codec, items, wire);
    QuietWireDrains(peer, codec, items);
    NilConcat(Wire(codec, Quiet(items)));
    events := Drain(peer, codec, wire);
  }

  lemma {:induction false} QuietWireDrains<P>(peer: Peer, codec: PayloadCodec<P>, items: seq<Frame<P>>)
    requires forall i :: 0 <= i < |items| ==> Sendable(peer, codec, items[i])
    ensures Drained(peer, codec, Wire(codec, Quiet(items))) == Stream(AllDelivered(Quiet(items)), [])
    ensures |AllDelivered(Quiet(items))| == |items|
    ensures forall i :: 0 <= i < |items| ==> AllDelivered(Quiet(items))[i] == Delivered(items[i])
  {
    var sent := Quiet(items);
    WireDrains(peer, codec, sent, []);
    NilConcat(Wire(codec, sent));
    NilConcat(AllDelivered(sent));
    AllDeliveredAt(sent);
  }

  lemma {:induction false} WireSnoc<P>(codec: PayloadCodec<P>, items: seq<(Bytes, Frame<P>)>, item: Frame<P>)
    ensures Wire(codec, items + [([], item)]) == Wire(codec, items) + Appended(codec, item)
    decreases items
  {
    if items == [] {
      NilConcat(Appended(codec, item));
      assert (items + [([], item)])[1..] == items;
    } else {
      WireSnoc(codec, items[1..], item);
      assert (items + [([], item)])[1..] == items[1..] + [([], item)];
      Assoc(items[0].0 + Appended(codec, items[0].1), Wire(codec, items[1..]), Appended(codec, item));
    }
  }

  lemma {:induction false} AllDeliveredAt<P>(items: seq<(Bytes, Frame<P>)>)
    ensures |AllDelivered(items)| == |items|
    ensures forall i :: 0 <= i < |items| ==> AllDelivered(items)[i] == Delivered(items[i].1)
    decreases items
  {
    if items != [] {
      AllDeliveredAt(items[1..]);
    }
  }
}
