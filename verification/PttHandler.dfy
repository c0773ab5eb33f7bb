/**
 Push-to-talk buffering as a sequential pipeline (backend/src/api/PTTHandler.cpp): packets are parsed, decoded
 and kept while the button is down, then re-encoded into fresh packets that keep the header fields.
 The codec is any pair of stateful functions; only its block size is fixed.
 */
module PttHandler {
  import opened Option
  import opened Octets
  import opened Wire
  import opened Packet
  import Layout

  const MAX_PACKET := 1500
  const BLOCK_SIZE := 160

  type Block = b: seq<Byte> | |b| == BLOCK_SIZE witness seq(BLOCK_SIZE, _ => 0)

  /** Decoding and encoding both step a state, whether they succeed or not. */
  datatype Codec<!D, !E, !Pcm> = Codec(
    decode: (D, seq<Byte>) -> (D, Option<Pcm>),
    encode: (E, Pcm) -> (E, Option<Block>))

  datatype Frame<+Pcm> = Frame(
    pcm: Pcm, sequence: U16, timestamp: U32, ssrc: U32, payloadType: Byte, marked: bool)

  /** The packet a handler reads out of the octets it got: the version bits are not looked at. */
  function Heard(packet: seq<Byte>): (p: Option<Rtp>)
    ensures p.Some? ==> p.value.payloadType < 128 && p.value.payload != []
  {
    if packet == [] || |packet| > MAX_PACKET then None
    else
      var p := Decode(Layout.Stamped(packet));
      if p.Some? && p.value.payload != [] then p else None
  }

  /** `p` is what the packet holds once its version bits read 2, and it has a payload to decode. */
  predicate Holds(packet: seq<Byte>, p: Rtp) {
    && 0 < |packet| <= 1500
    && Decode(packet[0 := 128 + packet[0] % 64]) == Some(p)
    && p.payload != []
  }

  /** Every such packet is heard, whatever its marker, list or extension, and no other. */
  lemma HeardIffHolds(packet: seq<Byte>, p: Rtp)
    ensures Heard(packet) == Some(p) <==> Holds(packet, p)
  {
    hide Decode;
  }

  /** What a packet makes of the decoder and of the buffer while the button is down. */
  ghost predicate Heeds<D, E, Pcm>(
      c: Codec<D, E, Pcm>, packet: seq<Byte>, d: D, frames: seq<Frame<Pcm>>, d': D, frames': seq<Frame<Pcm>>) {
    && ((forall p :: !Holds(packet, p)) ==> d' == d && frames' == frames)
    && (forall p :: Holds(packet, p) ==>
          var (after, pcm) := c.decode(d, p.payload);
          && d' == after
          && frames' == frames + if pcm.None? then []
                                 else [Frame(pcm.value, p.sequence, p.timestamp, p.ssrc, p.payloadType, p.marked)])
  }

  lemma TakeHeeds<D, E, Pcm>(c: Codec<D, E, Pcm>, d: D, frames: seq<Frame<Pcm>>, packet: seq<Byte>)
    ensures var (d', frames') := Take(c, d, frames, packet); Heeds(c, packet, d, frames, d', frames')
  {
    hide Heard, Holds;
    var h := Heard(packet);
    forall p | Holds(packet, p)
      ensures h == Some(p)
    {
      HeardIffHolds(packet, p);
    }
    if h.Some? {
      HeardIffHolds(packet, h.value);
      var (d', pcm) := c.decode(d, h.value.payload);
      if pcm.None? {
        assert frames + [] == frames;
      }
    }
  }

  function FrameOf<Pcm>(p: Rtp, pcm: Pcm): Frame<Pcm> {
    Frame(pcm, p.sequence, p.timestamp, p.ssrc, p.payloadType, p.marked)
  }

  /** One packet while the button is down. */
  function Take<D, E, Pcm>(c: Codec<D, E, Pcm>, d: D, frames: seq<Frame<Pcm>>, packet: seq<Byte>):
    (D, seq<Frame<Pcm>>)
  {
    var p := Heard(packet);
    if p.None? then (d, frames)
    else
      var (d', pcm) := c.decode(d, p.value.payload);
      (d', if pcm.Some? then frames + [FrameOf(p.value, pcm.value)] else frames)
  }

  function TakeAll<D, E, Pcm>(c: Codec<D, E, Pcm>, d: D, packets: seq<seq<Byte>>): (D, seq<Frame<Pcm>>) {
    if packets == [] then (d, [])
    else
      var (d', frames) := TakeAll(c, d, packets[..|packets| - 1]);
      Take(c, d', frames, packets[|packets| - 1])
  }

  /** The packet a frame is sent in. */
  function Resent<Pcm>(f: Frame<Pcm>, block: Block): Rtp {
    Rtp(f.marked, f.payloadType, f.sequence, f.timestamp, f.ssrc, [], None, block, 0)
  }

  function Release<D, E, Pcm>(c: Codec<D, E, Pcm>, e: E, frames: seq<Frame<Pcm>>): (E, seq<seq<Byte>>)
    requires forall f :: f in frames ==> f.payloadType < 128
  {
    if frames == [] then (e, [])
    else
      var f := frames[|frames| - 1];
      var (e', out) := Release(c, e, frames[..|frames| - 1]);
      var (e'', block) := c.encode(e', f.pcm);
      (e'', if block.Some? then out + [Encode(Resent(f, block.value), [])] else out)
  }

  /** What releasing one frame makes of the encoder, and the packet it adds in its place, if any. */
  ghost predicate Emits<D, E, Pcm>(
      c: Codec<D, E, Pcm>, f: Frame<Pcm>, e: E, e': E, released: seq<seq<Byte>>, place: nat, next: nat) {
    var (after, block) := c.encode(e, f.pcm);
    && e' == after
    && if block.None? then next == place
       else
         && place < |released| && next == place + 1
         && LaidOut(released[place], Rtp(f.marked, f.payloadType, f.sequence, f.timestamp, f.ssrc,
                                         [], None, block.value, 0))
  }

  /** The frames in their order, each encoded in the state the one before it left, and nothing else. */
  ghost predicate Plays<D, E, Pcm>(c: Codec<D, E, Pcm>, e: E, frames: seq<Frame<Pcm>>, e': E,
                                   released: seq<seq<Byte>>, encoders: seq<E>, places: seq<nat>) {
    && |encoders| == |places| == |frames| + 1
    && encoders[0] == e && encoders[|frames|] == e' && places[0] == 0 && places[|frames|] == |released|
    && forall i :: 0 <= i < |frames| ==>
         Emits(c, frames[i], encoders[i], encoders[i + 1], released, places[i], places[i + 1])
  }

  lemma ResentLaidOut<Pcm>(f: Frame<Pcm>, block: Block)
    requires f.payloadType < 128
    ensures LaidOut(Encode(Resent(f, block), []), Resent(f, block))
  {
    DecodeEncode(Resent(f, block), []);
    DecodesIffLaidOut(Encode(Resent(f, block), []), Resent(f, block));
  }

  /** One more frame at the end. */
  lemma PlaysOneMore<D, E, Pcm>(c: Codec<D, E, Pcm>, e: E, frames: seq<Frame<Pcm>>, e1: E, out: seq<seq<Byte>>,
                                encoders: seq<E>, places: seq<nat>, f: Frame<Pcm>)
    requires Plays(c, e, frames, e1, out, encoders, places) && f.payloadType < 128
    ensures var (e2, block) := c.encode(e1, f.pcm);
            var all := out + if block.None? then [] else [Encode(Resent(f, block.value), [])];
            Plays(c, e, frames + [f], e2, all, encoders + [e2], places + [|all|])
  {
    hide Encode, LaidOut;
    var n := |frames|;
    var (e2, block) := c.encode(e1, f.pcm);
    var all := out + if block.None? then [] else [Encode(Resent(f, block.value), [])];
    var es, ps := encoders + [e2], places + [|all|];
    forall i | 0 <= i <= n
      ensures Emits(c, (frames + [f])[i], es[i], es[i + 1], all, ps[i], ps[i + 1])
    {
      if i < n {
        assert Emits(c, frames[i], encoders[i], encoders[i + 1], out, places[i], places[i + 1]);
      } else if block.Some? {
        ResentLaidOut(f, block.value);
      }
    }
  }

  /** Releasing is playing the buffer from its first frame to its last. */
  lemma {:induction false} ReleasePlays<D, E, Pcm>(c: Codec<D, E, Pcm>, e: E, frames: seq<Frame<Pcm>>)
    returns (encoders: seq<E>, places: seq<nat>)
    requires forall f :: f in frames ==> f.payloadType < 128
    ensures var (e', out) := Release(c, e, frames); Plays(c, e, frames, e', out, encoders, places)
  {
    hide Encode;
    if frames == [] {
      encoders, places := [e], [0];
    } else {
      hide Plays;
      var init, f := frames[..|frames| - 1], frames[|frames| - 1];
      var (e1, out) := Release(c, e, init);
      encoders, places := ReleasePlays(c, e, init);
      PlaysOneMore(c, e, init, e1, out, encoders, places, f);
      var (e2, block) := c.encode(e1, f.pcm);
      var all := out + if block.None? then [] else [Encode(Resent(f, block.value), [])];
      assert frames == init + [f] && out + [] == out;
      assert Release(c, e, frames) == (e2, all);
      encoders, places := encoders + [e2], places + [|all|];
    }
  }

  lemma {:induction false} TakenTypes<D, E, Pcm>(c: Codec<D, E, Pcm>, d: D, packets: seq<seq<Byte>>)
    ensures forall f :: f in TakeAll(c, d, packets).1 ==> f.payloadType < 128
  {
    if packets == [] {
    } else {
      TakenTypes(c, d, packets[..|packets| - 1]);
    }
  }

  /** What the codec makes of the `i`-th arrival: the samples it decodes to, in the state it then has. */
  function SamplesAt<D, E, Pcm>(c: Codec<D, E, Pcm>, d: D, packets: seq<seq<Byte>>, i: nat): Option<Pcm>
    requires i < |packets|
  {
    var p := Heard(packets[i]);
    if p.None? then None else c.decode(TakeAll(c, d, packets[..i]).0, p.value.payload).1
  }

  /** The block those samples are encoded to at release, after the frames of all earlier arrivals. */
  function BlockAt<D, E, Pcm>(c: Codec<D, E, Pcm>, d: D, e: E, packets: seq<seq<Byte>>, i: nat): Option<Block>
    requires i < |packets|
  {
    TakenTypes(c, d, packets[..i]);
    var pcm := SamplesAt(c, d, packets, i);
    if pcm.None? then None else c.encode(Release(c, e, TakeAll(c, d, packets[..i]).1).0, pcm.value).1
  }

  /** What the `i`-th arrival contributes to the released burst: one packet or none. */
  function Said<D, E, Pcm>(c: Codec<D, E, Pcm>, d: D, e: E, packets: seq<seq<Byte>>, i: nat): seq<seq<Byte>>
    requires i < |packets|
  {
    var block := BlockAt(c, d, e, packets, i);
    if block.None? then [] else
      var p := Heard(packets[i]).value;
      [Encode(p.(csrc := [], extension := None, payload := block.value, padding := 0), [])]
  }

  /** The contributions of the first `n` arrivals, in arrival order. */
  function SaidUpTo<D, E, Pcm>(c: Codec<D, E, Pcm>, d: D, e: E, packets: seq<seq<Byte>>, n: nat): seq<seq<Byte>>
    requires n <= |packets|
  {
    if n == 0 then [] else SaidUpTo(c, d, e, packets, n - 1) + Said(c, d, e, packets, n - 1)
  }

  /** A contribution is 172 octets and parses to the header of its arrival around the block of its samples. */
  lemma SaidParses<D, E, Pcm>(c: Codec<D, E, Pcm>, d: D, e: E, packets: seq<seq<Byte>>, i: nat)
    requires i < |packets| && BlockAt(c, d, e, packets, i).Some?
    ensures Heard(packets[i]).Some? && |Said(c, d, e, packets, i)| == 1
    ensures var octets, p := Said(c, d, e, packets, i)[0], Heard(packets[i]).value;
            && |octets| == 172
            && Decode(octets) == Some(Rtp(p.marked, p.payloadType, p.sequence, p.timestamp, p.ssrc,
                                          [], None, BlockAt(c, d, e, packets, i).value, 0))
  {
    var p := Heard(packets[i]).value;
    DecodeEncode(p.(csrc := [], extension := None, payload := BlockAt(c, d, e, packets, i).value, padding := 0), []);
  }

  lemma TakeOneMore<D, E, Pcm>(c: Codec<D, E, Pcm>, d: D, packets: seq<seq<Byte>>, n: nat)
    requires 0 < n <= |packets|
    ensures var (d', frames) := TakeAll(c, d, packets[..n - 1]);
            TakeAll(c, d, packets[..n]) == Take(c, d', frames, packets[n - 1])
  {
    hide Take;
    assert packets[..n][..n - 1] == packets[..n - 1];
  }

  lemma ReleaseOneMore<D, E, Pcm>(c: Codec<D, E, Pcm>, e: E, frames: seq<Frame<Pcm>>, f: Frame<Pcm>)
    requires (forall g :: g in frames ==> g.payloadType < 128) && f.payloadType < 128
    ensures var (e', out) := Release(c, e, frames);
            var block := c.encode(e', f.pcm).1;
            Release(c, e, frames + [f]).1 ==
              out + if block.Some? then [Encode(Resent(f, block.value), [])] else []
  {
    assert (frames + [f])[..|frames|] == frames;
  }

  lemma BurstStep<D, E, Pcm>(c: Codec<D, E, Pcm>, d: D, e: E, packets: seq<seq<Byte>>, n: nat)
    requires 0 < n <= |packets|
    ensures (forall f :: f in TakeAll(c, d, packets[..n]).1 ==> f.payloadType < 128)
         && (forall f :: f in TakeAll(c, d, packets[..n - 1]).1 ==> f.payloadType < 128)
    ensures Release(c, e, TakeAll(c, d, packets[..n]).1).1
         == Release(c, e, TakeAll(c, d, packets[..n - 1]).1).1 + Said(c, d, e, packets, n - 1)
  {
    hide TakeAll, Release, Heard, Encode;
    TakenTypes(c, d, packets[..n]);
    TakenTypes(c, d, packets[..n - 1]);
    TakeOneMore(c, d, packets, n);
    var (d', frames) := TakeAll(c, d, packets[..n - 1]);
    var pcm := SamplesAt(c, d, packets, n - 1);
    if pcm.Some? {
      ReleaseOneMore(c, e, frames, FrameOf(Heard(packets[n - 1]).value, pcm.value));
    }
  }

  /** The whole burst: what is released is what the arrivals said, nothing lost, added or reordered. */
  lemma {:induction false} BurstPipeline<D, E, Pcm>(
      c: Codec<D, E, Pcm>, d: D, e: E, packets: seq<seq<Byte>>, n: nat)
    requires n <= |packets|
    ensures forall f :: f in TakeAll(c, d, packets[..n]).1 ==> f.payloadType < 128
    ensures Release(c, e, TakeAll(c, d, packets[..n]).1).1 == SaidUpTo(c, d, e, packets, n)
  {
    TakenTypes(c, d, packets[..n]);
    if n == 0 {
      hide Take, Said, Heard, Encode;
      assert packets[..0] == [];
    } else {
      BurstPipeline(c, d, e, packets, n - 1);
      BurstStep(c, d, e, packets, n);
    }
  }

  /** Octets that decode to an unpadded packet are its one encoding. */
  lemma UnpaddedOctets(octets: seq<Byte>)
    requires Decode(octets).Some? && Decode(octets).value.padding == 0
    ensures WellFormed(Decode(octets).value) && octets == Encode(Decode(octets).value, [])
  {
    EncodeDecode(octets);
  }

  class PttHandler<D, E, Pcm> {
    const codec: Codec<D, E, Pcm>
    var decoder: D
    var encoder: E
    var active: bool
    var frames: seq<Frame<Pcm>>

    ghost predicate Valid()
      reads this
    {
      forall f :: f in frames ==> f.payloadType < 128
    }

    constructor (codec: Codec<D, E, Pcm>, decoder: D, encoder: E)
      ensures Valid() && !active && frames == []
      ensures this.codec == codec && this.decoder == decoder && this.encoder == encoder
    {
      this.codec, this.decoder, this.encoder := codec, decoder, encoder;
      active, frames := false, [];
    }

    method Start()
      modifies this`active, this`frames
      ensures Valid() && active && frames == []
    {
      active := true;
      frames := [];
    }

    /** `stop`: the frames stay; nobody in the source calls it. */
    method Stop()
      modifies this`active
      ensures !active
    {
      active := false;
    }

    /** `process_packet`. */
    method ProcessPacket(packet: seq<Byte>) returns (consumed: bool)
      requires Valid()
      modifies this`decoder, this`frames
      ensures Valid() && consumed == active
      ensures !active ==> decoder == old(decoder) && frames == old(frames)
      ensures active ==> (decoder, frames) == Take(codec, old(decoder), old(frames), packet)
      ensures active ==> Heeds(codec, packet, old(decoder), old(frames), decoder, frames)
    {
      hide Heeds;
      TakeHeeds(codec, decoder, frames, packet);
      if !active {
        return false;
      }
      if |packet| > MAX_PACKET || packet == [] {
        return true;
      }
      var rtp, parsed := ParseCopy(packet);
      if parsed != Success {
        return true;
      }
      var payload := rtp.Payload();
      if payload == [] {
        return true;
      }
      var (d, pcm) := codec.decode(decoder, payload);
      decoder := d;
      if pcm.None? {
        return true;
      }
      ghost var p := rtp.View();
      Layout.FramedFits(rtp.buffer[..], rtp.Shape());
      frames := frames + [Frame(pcm.value, rtp.fields.sequence, rtp.fields.timestamp, rtp.fields.ssrc,
                                rtp.fields.payloadType, rtp.fields.marked)];
      assert FrameOf(p, pcm.value) == frames[|frames| - 1];
      return true;
    }

    /** `stop_and_release`. */
    method StopAndRelease() returns (released: seq<seq<Byte>>)
      requires Valid()
      modifies this`active, this`frames, this`encoder
      ensures Valid() && !active && frames == []
      ensures (encoder, released) == Release(codec, old(encoder), old(frames))
    {
      active := false;
      released := [];
      for i := 0 to |frames|
        invariant !active && frames == old(frames) && Valid()
        invariant (encoder, released) == Release(codec, old(encoder), frames[..i])
      {
        assert frames[..i + 1][..i] == frames[..i];
        var (e, block) := codec.encode(encoder, frames[i].pcm);
        encoder := e;
        if block.None? {
          continue;
        }
        var octets := Repack(frames[i], block.value);
        released := released + [octets];
      }
      assert frames[..|frames|] == frames;
      frames := [];
    }
  }

  /** A `StaticRtpPacket` constructed over a zero-padded copy of the packet, then parsed in place. */
  method ParseCopy(packet: seq<Byte>) returns (rtp: RtpPacket, r: Result)
    requires 0 < |packet| <= MAX_PACKET
    ensures fresh(rtp) && fresh(rtp.buffer)
    ensures r == Success <==> Decode(Layout.Stamped(packet)).Some?
    ensures r == Success ==> rtp.Framed() && rtp.View() == Decode(Layout.Stamped(packet)).value
  {
    var buffer := packet + seq(MAX_PACKET - |packet|, _ => 0);
    rtp := new RtpPacket.Over(buffer);
    assert rtp.buffer[..|packet|] == Layout.Stamped(buffer)[..|packet|] == Layout.Stamped(packet);
    BigEnough(rtp.buffer[..], |packet|);
    r := rtp.Parse(|packet|);
  }

  /** The packet a released frame travels in, built from a fresh `StaticRtpPacket`. */
  method Repack<Pcm>(f: Frame<Pcm>, block: Block) returns (octets: seq<Byte>)
    requires f.payloadType < 128
    ensures octets == Encode(Resent(f, block), [])
  {
    var rtp := new RtpPacket.Fresh(MAX_PACKET);
    rtp.SetPayloadType(f.payloadType);
    rtp.SetSequenceNumber(f.sequence);
    rtp.SetTimestamp(f.timestamp);
    rtp.SetSsrc(f.ssrc);
    rtp.SetMarker(f.marked);
    var _ := rtp.SetPayloadSize(BLOCK_SIZE);
    rtp.WritePayload(block);
    assert rtp.View() == Resent(f, block);
    octets := rtp.ToWire();
    UnpaddedOctets(octets);
  }

  /** What each packet makes of decoder and buffer, from an empty one on. */
  ghost predicate Listens<D, E, Pcm>(c: Codec<D, E, Pcm>, d: D, packets: seq<seq<Byte>>, d': D,
                                     frames: seq<Frame<Pcm>>, decoders: seq<D>, buffers: seq<seq<Frame<Pcm>>>) {
    && |decoders| == |buffers| == |packets| + 1
    && decoders[0] == d && decoders[|packets|] == d' && buffers[0] == [] && buffers[|packets|] == frames
    && forall i :: 0 <= i < |packets| ==>
         Heeds(c, packets[i], decoders[i], buffers[i], decoders[i + 1], buffers[i + 1])
  }

  lemma ListensOneMore<D, E, Pcm>(
      c: Codec<D, E, Pcm>, d: D, packets: seq<seq<Byte>>, d1: D, frames: seq<Frame<Pcm>>,
      decoders: seq<D>, buffers: seq<seq<Frame<Pcm>>>, packet: seq<Byte>, d2: D, frames': seq<Frame<Pcm>>)
    requires Listens(c, d, packets, d1, frames, decoders, buffers) && Heeds(c, packet, d1, frames, d2, frames')
    ensures Listens(c, d, packets + [packet], d2, frames', decoders + [d2], buffers + [frames'])
  {
    hide Heeds;
    var ds, bs := decoders + [d2], buffers + [frames'];
    forall i | 0 <= i <= |packets|
      ensures Heeds(c, (packets + [packet])[i], ds[i], bs[i], ds[i + 1], bs[i + 1])
    {
      assert i < |packets| ==> Heeds(c, packets[i], decoders[i], buffers[i], decoders[i + 1], buffers[i + 1]);
    }
  }

  /** What a burst leaves on record: the states of the codec and the buffer, and the place of each frame's packet. */
  datatype Record<D, E, Pcm> = Record(
    decoders: seq<D>, buffers: seq<seq<Frame<Pcm>>>, encoders: seq<E>, places: seq<nat>)

  /**
   A talk burst from button down to button up, on a handler in any state: each packet is heeded in the decoder
   state that the one before it left, and what they leave in the buffer is played out.
   */
  method Burst<D, E, Pcm>(h: PttHandler<D, E, Pcm>, packets: seq<seq<Byte>>)
    returns (released: seq<seq<Byte>>, ghost r: Record<D, E, Pcm>)
    modifies h
    ensures h.Valid() && !h.active && h.frames == []
    ensures released == SaidUpTo(h.codec, old(h.decoder), old(h.encoder), packets, |packets|)
    ensures r.buffers != [] && Listens(h.codec, old(h.decoder), packets, h.decoder, r.buffers[|r.buffers| - 1],
                                       r.decoders, r.buffers)
    ensures Plays(h.codec, old(h.encoder), r.buffers[|r.buffers| - 1], h.encoder, released, r.encoders, r.places)
  {
    hide Heeds, Plays, SaidUpTo, Take, Release;
    ghost var d, e := h.decoder, h.encoder;
    h.Start();
    ghost var decoders, buffers: seq<seq<Frame<Pcm>>> := [d], [[]];
    assert packets[..0] == [];
    for i := 0 to |packets|
      invariant h.Valid() && h.active && h.encoder == e
      invariant (h.decoder, h.frames) == TakeAll(h.codec, d, packets[..i])
      invariant Listens(h.codec, d, packets[..i], h.decoder, h.frames, decoders, buffers)
    {
      ghost var d1, frames := h.decoder, h.frames;
      var consumed := h.ProcessPacket(packets[i]);
      assert consumed;
      TakeOneMore(h.codec, d, packets, i + 1);
      ListensOneMore(h.codec, d, packets[..i], d1, frames, decoders, buffers, packets[i], h.decoder, h.frames);
      assert packets[..i + 1] == packets[..i] + [packets[i]];
      decoders, buffers := decoders + [h.decoder], buffers + [h.frames];
    }
    assert packets[..|packets|] == packets;
    BurstPipeline(h.codec, d, e, packets, |packets|);
    ghost var encoders, places := ReleasePlays(h.codec, e, h.frames);
    released := h.StopAndRelease();
    r := Record(decoders, buffers, encoders, places);
  }
}
