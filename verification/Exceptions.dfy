/** One run for each call that does not keep the layout: a short way into each failing case of the contracts. */
module Exceptions {
  import opened Option
  import opened Octets
  import opened Endian
  import opened Wire
  import opened Packet
  import opened Edits
  import Layout

  /** A payload type of 200 arrives as 72 with the marker set. */
  method TypeTooLarge() returns (p: RtpPacket)
    ensures 0 < p.packetSize <= p.buffer.Length && !p.Framed()
    ensures Decode(p.Wire()) == Some(EMPTY.(payloadType := 72, marked := true))
  {
    hide Layout.Framed, Layout.View, Decode;
    p := new RtpPacket.Fresh(1500);
    Layout.FramedFits(p.buffer[..], p.Shape());
    p.SetPayloadType(200);
  }

  /** Padding that the size check lets through and the buffer does not hold. */
  method PaddingTooLarge() returns (p: RtpPacket, r: Result)
    ensures r == OutOfBounds && !p.Framed() && p.buffer.Length == 20 && p.packetSize == 24
  {
    hide Layout.Framed, Layout.View;
    p := new RtpPacket.Fresh(20);
    Layout.FramedFits(p.buffer[..], p.Shape());
    var _ := p.SetPayloadSize(8);
    Layout.FramedFits(p.buffer[..], p.Shape());
    assert p.Shape().PayloadEnd() == 20;
    hide Layout.Shape.PayloadEnd, Layout.Shape.PacketSize, Decode, Wrapped16;
    Wrapped16Same(24);
    r := p.SetPaddingBytes(4);
  }

  /** Padding that is set and cleared stays in the packet, as payload. */
  method PaddingCleared() returns (p: RtpPacket)
    ensures 0 < p.packetSize <= p.buffer.Length && !p.Framed()
    ensures Decode(p.Wire()) == Some(EMPTY.(payload := [1]))
  {
    hide Layout.Framed, Layout.View, Decode;
    p := new RtpPacket.Fresh(1500);
    Layout.FramedFits(p.buffer[..], p.Shape());
    var _ := p.SetPaddingBytes(1);
    Layout.FramedFits(p.buffer[..], p.Shape());
    assert p.PaddingOctets() == [1] == p.buffer[..][p.Shape().PayloadOffset()..p.packetSize];
    hide Layout.Shape.ExtensionSize, Layout.Shape.CsrcEnd;
    var _ := p.SetPaddingBytes(0);
  }

  /** An empty payload without padding clears the last octet of the SSRC. */
  method PayloadEmptied() returns (p: RtpPacket)
    ensures p.buffer.Length == 1500 && p.fields.ssrc == 1 && Read32(p.buffer[..], 8) == 0
    ensures !(p.Framed() && p.View() == EMPTY.(ssrc := 1))
  {
    hide Layout.Framed, Layout.View;
    p := new RtpPacket.Fresh(1500);
    p.SetSsrc(1);
    ghost var b := p.buffer[..];
    Layout.FramedFits(b, p.Shape());
    Layout.FramedOctets(b, p.Shape());
    assert p.payloadOffset == FIXED_SIZE;
    LowestOctet(b);
    var _ := p.SetPayloadSize(0);
  }

  lemma LowestOctet(b: seq<Byte>)
    requires |b| >= FIXED_SIZE && b[8..12] == Bytes32(1)
    ensures b[11] == 1 && Read32(b[11 := 0], 8) == 0
  {
    var w := b[8..12];
    assert w == [0, 0, 0, 1] by { Bytes32Octets(1); }
    assert b[8] == w[0] && b[9] == w[1] && b[10] == w[2] && b[11] == w[3];
  }

  /** An extension that is dropped stays in the packet, as payload. */
  method ExtensionDropped() returns (p: RtpPacket)
    ensures 0 < p.packetSize <= p.buffer.Length && !p.Valid()
    ensures Decode(p.Wire()) == Some(EMPTY.(payload := [0, 5, 0, 0]))
  {
    hide Layout.Framed, Layout.View, Decode, Bytes16;
    p := new RtpPacket.Fresh(1500);
    Layout.FramedFits(p.buffer[..], p.Shape());
    var r := p.SetExtension(Layout.ExtensionHeader(5, 0));
    assert r == Success;
    ghost var b, s := p.buffer[..], p.Shape();
    Layout.FramedFits(b, s);
    OneWordExtension(b, s);
    p.DropExtension();
  }

  lemma OneWordExtension(b: seq<Byte>, s: Layout.Shape)
    requires Layout.Framed(b, s)
    requires Layout.View(b, s) == EMPTY.(extension := Some(Extension(5, 0, [])))
    ensures b[s.CsrcEnd()..s.PayloadEnd()] == [0, 5, 0, 0]
  {
    hide Layout.Framed, Layout.View;
    Layout.FramedFits(b, s);
    Layout.FramedOctets(b, s);
    Layout.ViewExtensionHeader(b, s);
  }

  /** A packet that arrives with a CSRC and no extension cannot be edited where it was parsed. */
  method ParsedForReading() returns (q: RtpPacket)
    ensures q.Framed() && q.View() == EMPTY.(csrc := [7]) && !q.Valid()
  {
    hide Layout.Framed, Layout.View;
    var edits := [SetCsrc([7])];
    assert edits[..0] == [];
    var r;
    q, r := SendAndParse(edits, 1500);
  }
}
