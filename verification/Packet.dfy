/**
 The RTP packet over a fixed buffer, edited in place (backend/src/ThirdParty/RtpCpp/RtpPacket.hpp), for the
 two fixed-size buffers the source instantiates: an array (`StaticRtpPacket`) and a span (`RtpPacketView`).
 Offsets are the source's 16-bit fields, so buffers hold at most 65535 octets.
 */
module Packet {
  import opened Option
  import opened Octets
  import opened Blocks
  import opened Endian
  import opened Wire
  import opened Layout

  /**
   `NarrowingFailed` is the assertion inside `narrow_cast`, read as rejection; so is `OutOfBounds`, for a write
   that would land outside the buffer.
   */
  datatype Result =
    | Success
    | BufferTooSmall
    | ParseBufferOverflow
    | ParseExtensionOverflow
    | InvalidRtpHeader
    | InvalidCsrcCount
    | NarrowingFailed
    | OutOfBounds

  const MAX_BUFFER := 0xFFFF

  /** `memmove`, skipped when the destination is the end of the buffer: then there is nothing to move. */
  function Relocated(b: seq<Byte>, dst: nat, src: nat, n: nat): (r: seq<Byte>)
    requires dst + n <= |b| && src + n <= |b|
    ensures |r| == |b|
  {
    if |b| > dst then Splice(b, dst, b[src..src + n]) else b
  }

  /** A payload of the given size, after the count octet was written over the last octet of the packet. */
  function Counted(b: seq<Byte>, at: nat, size: nat, padding: Byte): (r: seq<Byte>)
    requires at + size <= |b| && size + padding > 0
    ensures |r| == size
  {
    if padding > 0 then b[at..at + size] else b[at..at + size - 1] + [0]
  }

  class RtpPacket {
    const buffer: array<Byte>
    var csrc: seq<U32>
    var extensionOffset: nat
    var payloadOffset: nat
    var payloadSize: nat
    var packetSize: nat
    var fields: FixedHeader
    var extensionHeader: ExtensionHeader
    var padding: Byte

    /** The default constructor of `StaticRtpPacket`: an all-zero buffer. The version is not written yet. */
    constructor Fresh(capacity: nat)
      requires FIXED_SIZE <= capacity <= MAX_BUFFER
      ensures Valid() && fresh(buffer) && buffer.Length == capacity
      ensures View() == EMPTY && csrc == [] && packetSize == FIXED_SIZE
      ensures forall i :: 0 <= i < capacity ==> buffer[i] == 0
    {
      buffer := new Byte[capacity](_ => 0);
      csrc := [];
      extensionOffset, payloadOffset, payloadSize, packetSize := FIXED_SIZE, FIXED_SIZE, 0, FIXED_SIZE;
      fields, extensionHeader, padding := NO_FIELDS, NO_EXTENSION, 0;
      new;
      hide Layout.Framed, Layout.View;
      ZeroFramed(buffer[..]);
    }

    /** The constructor that takes a filled buffer: it stamps the version and trusts nothing else. */
    constructor Over(contents: seq<Byte>)
      requires FIXED_SIZE <= |contents| <= MAX_BUFFER
      ensures fresh(buffer) && buffer[..] == Stamped(contents)
      ensures buffer[0] == 128 + contents[0] % 64 && buffer[1..] == contents[1..]
      ensures packetSize == extensionOffset == FIXED_SIZE && csrc == []
    {
      buffer := new Byte[|contents|](i requires 0 <= i < |contents| => contents[i]);
      csrc := [];
      extensionOffset, payloadOffset, payloadSize, packetSize := FIXED_SIZE, FIXED_SIZE, 0, FIXED_SIZE;
      fields, extensionHeader, padding := NO_FIELDS, NO_EXTENSION, 0;
      new;
      buffer[0] := WithVersion2(buffer[0]);
    }

    /** A default view that a `parse(buffer, ...)` has put a buffer into: nothing is stamped. */
    constructor Holding(contents: seq<Byte>)
      requires |contents| <= MAX_BUFFER
      ensures fresh(buffer) && buffer[..] == contents
      ensures packetSize == extensionOffset == FIXED_SIZE && csrc == []
    {
      buffer := new Byte[|contents|](i requires 0 <= i < |contents| => contents[i]);
      csrc := [];
      extensionOffset, payloadOffset, payloadSize, packetSize := FIXED_SIZE, FIXED_SIZE, 0, FIXED_SIZE;
      fields, extensionHeader, padding := NO_FIELDS, NO_EXTENSION, 0;
    }

    ghost function Shape(): Shape
      reads this
    {
      Layout.Shape(fields, extensionHeader, payloadSize, padding)
    }

    /** Buffer, fields and offsets agree, apart from the extension offset. */
    ghost predicate Framed()
      reads this, buffer
    {
      && buffer.Length <= MAX_BUFFER
      && Layout.Framed(buffer[..], Shape())
      && payloadOffset == Shape().PayloadOffset()
      && packetSize == Shape().PacketSize()
    }

    /** The invariant of every guarded edit. */
    ghost predicate Valid()
      reads this, buffer
    {
      Framed() && extensionOffset == Shape().CsrcEnd()
    }

    /** The packet this object stands for. */
    ghost function View(): Rtp
      reads this, buffer
      requires Framed()
    {
      Layout.View(buffer[..], Shape())
    }

    /** The octets `ToWire` hands out. */
    ghost function Wire(): seq<Byte>
      reads this, buffer
      requires 0 < packetSize <= buffer.Length
    {
      Stamped(buffer[..packetSize])
    }

    /** All padding octets, the count included. */
    ghost function PaddingOctets(): seq<Byte>
      reads this, buffer
      requires Framed()
    {
      buffer[Shape().PayloadEnd()..packetSize]
    }

    /** What the buffer holds where the data of an extension of `length` words goes. */
    ghost function Room(length: U16): seq<Byte>
      reads this, buffer
      requires Shape().CsrcEnd() + 4 + 4 * length <= buffer.Length
    {
      buffer[..][Shape().CsrcEnd() + 4..Shape().CsrcEnd() + 4 + 4 * length]
    }

    /** That is right behind the extension's own header, and nothing there is cleared. */
    lemma RoomAt(length: U16, i: nat)
      requires FIXED_SIZE + 4 * fields.csrcCount + 4 + 4 * length <= buffer.Length && i < 4 * length
      ensures |Room(length)| == 4 * length && Room(length)[i] == buffer[FIXED_SIZE + 4 * fields.csrcCount + 4 + i]
    {
    }

    /** What the octets stand for, under any shape that fits them. */
    lemma WireOf(s: Shape)
      requires Layout.Framed(buffer[..], s) && packetSize == s.PacketSize()
      ensures Decode(Wire()) == Some(Layout.View(buffer[..], s))
    {
      FramedDecodes(buffer[..], s);
      assert buffer[..][..packetSize] == buffer[..packetSize];
    }

    lemma FramedIsWire()
      requires Framed()
      ensures Decode(Wire()) == Some(View()) && |Wire()| == Size(View()) == packetSize
    {
      WireOf(Shape());
      ViewWellFormed(buffer[..], Shape());
    }

    // ----- fixed header fields -----

    method SetMarker(marked: bool)
      requires Framed()
      modifies this`fields, buffer
      ensures Framed() && View() == old(View()).(marked := marked)
      ensures old(Valid()) ==> Valid()
      ensures buffer[FIXED_SIZE..] == old(buffer[FIXED_SIZE..])
    {
      hide Layout.Framed, Layout.View, WithMarkerBit;
      ghost var b, s := buffer[..], Shape();
      FramedFits(b, s);
      fields := fields.(marked := marked);
      buffer[1] := WithMarkerBit(buffer[1], marked);
      MarkerWritten(b, s, marked);
    }

    /** Only seven bits fit: a larger value also sets the marker bit of the octet. */
    method SetPayloadType(payloadType: Byte)
      requires Framed()
      modifies this`fields, buffer
      ensures Framed() <==> payloadType < 128
      ensures old(Valid()) && payloadType < 128 ==> Valid()
      ensures payloadType < 128 ==> View() == old(View()).(payloadType := payloadType)
      ensures payloadType >= 128 ==>
        Decode(Wire()) == Some(old(View()).(payloadType := payloadType - 128, marked := true))
      ensures buffer[FIXED_SIZE..] == old(buffer[FIXED_SIZE..])
    {
      hide Layout.View, Decode, HeaderOf;
      ghost var b, s := buffer[..], Shape();
      FramedFits(b, s);
      fields := fields.(payloadType := payloadType);
      buffer[1] := WithType(buffer[1], payloadType);
      if payloadType < 128 {
        PayloadTypeEdit(b, s, payloadType, fields);
      } else {
        ghost var s' := s.(fields := s.fields.(payloadType := payloadType - 128, marked := true));
        PayloadTypeEdit(b, s, payloadType, s'.fields);
        WireOf(s');
      }
    }

    method SetSequenceNumber(sequence: U16)
      requires Framed()
      modifies this`fields, buffer
      ensures Framed() && View() == old(View()).(sequence := sequence)
      ensures old(Valid()) ==> Valid()
      ensures buffer[FIXED_SIZE..] == old(buffer[FIXED_SIZE..])
    {
      hide Layout.Framed, Layout.View, Splice;
      ghost var b, s := buffer[..], Shape();
      FramedFits(b, s);
      fields := fields.(sequence := sequence);
      Write16(buffer, 2, sequence);
      SequenceWritten(b, s, sequence);
    }

    method SetTimestamp(timestamp: U32)
      requires Framed()
      modifies this`fields, buffer
      ensures Framed() && View() == old(View()).(timestamp := timestamp)
      ensures old(Valid()) ==> Valid()
      ensures buffer[FIXED_SIZE..] == old(buffer[FIXED_SIZE..])
    {
      hide Layout.Framed, Layout.View, Splice;
      ghost var b, s := buffer[..], Shape();
      FramedFits(b, s);
      fields := fields.(timestamp := timestamp);
      Write32(buffer, 4, timestamp);
      TimestampWritten(b, s, timestamp);
    }

    method SetSsrc(ssrc: U32)
      requires Framed()
      modifies this`fields, buffer
      ensures Framed() && View() == old(View()).(ssrc := ssrc)
      ensures old(Valid()) ==> Valid()
      ensures buffer[FIXED_SIZE..] == old(buffer[FIXED_SIZE..])
    {
      hide Layout.Framed, Layout.View, Splice;
      ghost var b, s := buffer[..], Shape();
      FramedFits(b, s);
      fields := fields.(ssrc := ssrc);
      Write32(buffer, 8, ssrc);
      SsrcWritten(b, s, ssrc);
    }

    // ----- CSRC list -----

    /** The guarded `memmove` that the resizing setters share. */
    method MoveBlock(dst: nat, src: nat, amount: nat)
      requires dst + amount <= buffer.Length && src + amount <= buffer.Length
      modifies buffer
      ensures buffer[..] == Relocated(old(buffer[..]), dst, src, amount)
    {
      if buffer.Length > dst {
        MemMove(buffer, dst, src, amount);
      }
    }

    method WriteExtensionHeader(at: nat, h: ExtensionHeader)
      requires at + 4 <= buffer.Length
      modifies buffer
      ensures buffer[..] == Splice(old(buffer[..]), at, Bytes16(h.id) + Bytes16(h.length))
    {
      ghost var b := buffer[..];
      Write16(buffer, at, h.id);
      Write16(buffer, at + 2, h.length);
      SpliceTwice(b, at, Bytes16(h.id), Bytes16(h.length));
    }

    /** Writes the words of `csrc` from the twelfth octet on. */
    method WriteCsrc()
      requires |csrc| == fields.csrcCount && FIXED_SIZE + 4 * |csrc| <= packetSize <= buffer.Length
      modifies buffer
      ensures buffer[..] == Splice(old(buffer[..]), FIXED_SIZE, BytesOfWords(csrc))
    {
      var at, idx := FIXED_SIZE, 0;
      ghost var b := buffer[..];
      assert csrc[..0] == [];
      while idx < fields.csrcCount
        invariant 0 <= idx <= fields.csrcCount && at == FIXED_SIZE + 4 * idx
        invariant buffer[..] == Splice(b, FIXED_SIZE, BytesOfWords(csrc[..idx]))
      {
        assert at < buffer.Length && at < packetSize;
        Write32(buffer, at, csrc[idx]);
        SpliceWord(b, csrc, idx);
        at := at + 4;
        idx := idx + 1;
      }
      assert csrc[..idx] == csrc;
    }

    /** `commit_csrc`: makes the pending list `csrc` the list of the packet. */
    method CommitCsrc() returns (r: Result)
      requires Valid()
      modifies this`fields, this`extensionOffset, this`payloadOffset, this`packetSize, buffer
      ensures Valid()
      ensures r == InvalidCsrcCount <==> |csrc| > MAX_CSRC
      ensures r == BufferTooSmall <==>
        |csrc| <= MAX_CSRC && Size(old(View()).(csrc := csrc)) > buffer.Length
      ensures r in {Success, InvalidCsrcCount, BufferTooSmall}
      ensures r == Success ==> View() == old(View()).(csrc := csrc) && PaddingOctets() == old(PaddingOctets())
      ensures r != Success ==> View() == old(View()) && buffer[..] == old(buffer[..]) && unchanged(this)
    {
      hide Layout.Framed, Layout.View, BytesOfWords, Splice, Relocated;
      ghost var b, s := buffer[..], Shape();
      FramedFits(b, s);
      var count := |csrc|;
      if count > MAX_CSRC {
        return InvalidCsrcCount;
      }
      var dst := FIXED_SIZE + 4 * count;
      var extensionSize := if fields.extended then 4 + 4 * extensionHeader.length else 0;
      var amount := payloadSize + padding + extensionSize;
      var updated := dst + amount;
      if updated > buffer.Length {
        return BufferTooSmall;
      }
      ghost var s' := s.(fields := s.fields.(csrcCount := count));
      assert dst == s'.CsrcEnd() && amount == s.PacketSize() - s.CsrcEnd() && updated == s'.PacketSize();
      MoveBlock(dst, extensionOffset, amount);
      ghost var moved := buffer[..];
      fields := fields.(csrcCount := count);
      extensionOffset := dst;
      payloadOffset := dst + extensionSize;
      packetSize := updated;
      buffer[0] := WithCount(buffer[0], count);
      ghost var counted := buffer[..];
      WriteCsrc();
      assert Shape() == s' && s'.Fits(|b|);
      assert extensionOffset == s'.CsrcEnd() && payloadOffset == s'.PayloadOffset() && packetSize == s'.PacketSize();
      hide Layout.Shape.ExtensionSize, Layout.Shape.CsrcEnd;
      Committed(b, s, csrc, moved, counted, buffer[..], s');
      assert Framed();
      return Success;
    }

    // ----- extension -----

    /** The part of `set_extension` behind its size check. */
    method PlaceExtension(header: ExtensionHeader, dst: nat, amount: nat)
      requires Valid() && dst == Shape().CsrcEnd() + 4 + 4 * header.length
      requires amount == payloadSize + padding && dst + amount <= buffer.Length
      modifies this`fields, this`extensionHeader, this`payloadOffset, this`packetSize, buffer
      ensures Valid()
      ensures View() == old(View()).(extension := Some(Extension(header.id, header.length, old(Room(header.length)))))
      ensures PaddingOctets() == old(PaddingOctets())
    {
      hide Layout.Framed, Layout.View, Splice, Relocated, Bytes16, WithExtensionBit;
      ghost var b, s := buffer[..], Shape();
      FramedFits(b, s);
      ghost var s' := s.(fields := s.fields.(extended := true), extension := header);
      ghost var room := Room(header.length);
      assert dst == s'.PayloadOffset() && dst + amount == s'.PacketSize() && payloadOffset + amount == s.PacketSize();
      assert room == b[s.CsrcEnd() + 4..s.CsrcEnd() + 4 + 4 * s'.extension.length];
      MoveBlock(dst, payloadOffset, amount);
      ghost var moved := buffer[..];
      assert moved == Relocated(b, s'.PayloadOffset(), s.PayloadOffset(), s.PacketSize() - s.PayloadOffset());
      packetSize := dst + amount;
      payloadOffset := dst;
      extensionHeader := header;
      WriteExtensionHeader(extensionOffset, extensionHeader);
      ghost var written := buffer[..];
      fields := fields.(extended := true);
      buffer[0] := WithExtensionBit(buffer[0], true);
      assert Shape() == s';
      assert payloadOffset == s'.PayloadOffset() && packetSize == s'.PacketSize();
      assert extensionOffset == s.CsrcEnd() == s'.CsrcEnd() && s'.Fits(|b|);
      hide Layout.Shape.ExtensionSize, Layout.Shape.CsrcEnd;
      Extended(b, s, moved, written, buffer[..], s');
      assert Framed();
      assert View() == Layout.View(b, s).(extension := Some(Extension(header.id, header.length, room)));
    }

    /** `set_extension(std::optional<ExtensionHeader>)` with a header: the data is what the room held. */
    method SetExtension(header: ExtensionHeader) returns (r: Result)
      requires Valid()
      modifies this`fields, this`extensionHeader, this`payloadOffset, this`packetSize, buffer
      ensures Valid() && r in {Success, BufferTooSmall}
      ensures r == Success <==>
        old(Shape().CsrcEnd()) + 4 + 4 * header.length + old(payloadSize + padding) <= buffer.Length
      ensures r == Success ==>
        && View() == old(View()).(extension := Some(Extension(header.id, header.length, old(Room(header.length)))))
        && PaddingOctets() == old(PaddingOctets())
      ensures r != Success ==> buffer[..] == old(buffer[..]) && unchanged(this)
    {
      hide Layout.Framed, Layout.View;
      var dst := extensionOffset + 4 + 4 * header.length;
      var amount := payloadSize + padding;
      if dst + amount > buffer.Length {
        return BufferTooSmall;
      }
      PlaceExtension(header, dst, amount);
      return Success;
    }

    /** `set_extension(std::nullopt)`: clears the bit but leaves the extension where it is. */
    method DropExtension()
      requires Valid()
      modifies this`fields, this`extensionHeader, buffer
      ensures Valid() <==> !old(fields.extended)
      ensures !old(fields.extended) ==> View() == old(View()) && PaddingOctets() == old(PaddingOctets())
      ensures Decode(Wire()) == Some(old(View()).(extension := None,
                payload := old(buffer[..])[old(Shape().CsrcEnd())..old(Shape().PayloadEnd())]))
    {
      hide Layout.Framed, Layout.View, Decode;
      ghost var b, s := buffer[..], Shape();
      FramedFits(b, s);
      ghost var s' := s.(fields := s.fields.(extended := false), extension := NO_EXTENSION,
                         payloadSize := s.ExtensionSize() + s.payloadSize);
      fields := fields.(extended := false);
      buffer[0] := WithExtensionBit(buffer[0], false);
      extensionHeader := NO_EXTENSION;
      UnextendStep(b, s, buffer[..], s');
      WireOf(s');
      if !s.fields.extended {
        assert Shape() == s' && s'.PayloadEnd() == s.PayloadEnd();
        UpdatedSlice(b, 0, buffer[0], s.PayloadEnd(), s.PacketSize());
      }
    }

    /** `set_extension(ExtensionId)`. */
    method SetExtensionId(id: U16) returns (r: Result)
      requires Valid()
      modifies this`fields, this`extensionHeader, this`payloadOffset, this`packetSize, buffer
      ensures Valid() && r in {Success, BufferTooSmall}
      ensures r == BufferTooSmall <==>
        !old(fields.extended) && Size(old(View()).(extension := Some(Extension(id, 0, [])))) > buffer.Length
      ensures r == Success ==>
        && View() == old(View()).(extension :=
             if old(fields.extended) then Some(old(View()).extension.value.(id := id)) else Some(Extension(id, 0, [])))
        && PaddingOctets() == old(PaddingOctets())
      ensures r != Success ==> buffer[..] == old(buffer[..]) && unchanged(this)
    {
      hide Layout.Framed, Layout.View, Splice, Relocated;
      ghost var b, s := buffer[..], Shape();
      FramedFits(b, s);
      if !fields.extended {
        r := SetExtension(ExtensionHeader(id, 0));
        assert r == Success ==> old(Room(0)) == [];
        return;
      }
      extensionHeader := extensionHeader.(id := id);
      Write16(buffer, extensionOffset, extensionHeader.id);
      IdWritten(b, s, buffer[..], Shape());
      return Success;
    }

    /** The writes of `set_extension(ExtensionLength)` behind its size check. */
    method WriteLength(length: U16, dst: nat, amount: nat)
      requires dst + amount <= buffer.Length && payloadOffset + amount <= buffer.Length
      requires extensionOffset + 4 <= buffer.Length
      modifies this`extensionHeader, this`payloadOffset, this`packetSize, buffer
      ensures buffer[..] == Splice(Relocated(old(buffer[..]), dst, old(payloadOffset), amount),
                                   extensionOffset + 2, Bytes16(length))
      ensures packetSize == dst + amount && payloadOffset == dst
      ensures extensionHeader == old(extensionHeader).(length := length)
    {
      MoveBlock(dst, payloadOffset, amount);
      packetSize := dst + amount;
      payloadOffset := dst;
      extensionHeader := extensionHeader.(length := length);
      Write16(buffer, extensionOffset + 2, extensionHeader.length);
    }

    /** What they amount to. */
    method MoveExtension(length: U16, dst: nat, amount: nat)
      requires Valid() && fields.extended && dst == Shape().CsrcEnd() + 4 + 4 * length
      requires amount == payloadSize + padding && dst + amount <= buffer.Length
      modifies this`extensionHeader, this`payloadOffset, this`packetSize, buffer
      ensures Valid()
      ensures View() == old(View()).(extension := Some(Extension(
                          old(extensionHeader.id), length, old(Room(length)))))
      ensures PaddingOctets() == old(PaddingOctets())
    {
      hide Layout.Framed, Layout.View, Splice, Relocated, Bytes16;
      ghost var b, s := buffer[..], Shape();
      FramedFits(b, s);
      ghost var s' := s.(extension := s.extension.(length := length));
      ghost var moved := Relocated(b, dst, payloadOffset, amount);
      assert Room(length) == b[s.CsrcEnd() + 4..s.CsrcEnd() + 4 + 4 * length];
      LengthOnly(s, length);
      assert s'.Fits(|b|);
      hide Layout.Shape.ExtensionSize, Layout.Shape.CsrcEnd, Layout.Shape.PayloadOffset, Layout.Shape.PayloadEnd;
      hide Layout.Shape.PacketSize;
      WriteLength(length, dst, amount);
      LengthWritten(b, s, moved, buffer[..], s');
    }

    /** `set_extension(ExtensionLength)`. */
    method SetExtensionLength(length: U16) returns (r: Result)
      requires Valid()
      modifies this`fields, this`extensionHeader, this`payloadOffset, this`packetSize, buffer
      ensures Valid() && r in {Success, BufferTooSmall}
      ensures r == Success <==>
        old(Shape().CsrcEnd()) + 4 + 4 * length + old(payloadSize + padding) <= buffer.Length
      ensures r == Success ==>
        && View() == old(View()).(extension := Some(Extension(
             if old(fields.extended) then old(extensionHeader.id) else 0, length, old(Room(length)))))
        && PaddingOctets() == old(PaddingOctets())
      ensures r != Success ==> buffer[..] == old(buffer[..]) && unchanged(this)
    {
      hide Layout.Framed, Layout.View, Splice, Relocated;
      ghost var b, s := buffer[..], Shape();
      FramedFits(b, s);
      if !fields.extended {
        r := SetExtension(ExtensionHeader(0, length));
        return;
      }
      var dst := extensionOffset + (length * 4 + 4);
      var amount := payloadSize + padding;
      var updated := dst + amount;
      if updated > buffer.Length {
        return BufferTooSmall;
      }
      MoveExtension(length, dst, amount);
      return Success;
    }

    /** `extension_data`, with the source's assertions. */
    method ExtensionData() returns (data: seq<Byte>)
      requires Valid()
      ensures data == if View().extension.Some? then View().extension.value.data else []
    {
      FramedFits(buffer[..], Shape());
      if !fields.extended {
        return [];
      }
      var at := extensionOffset + 4;
      assert 4 + 4 * extensionHeader.length < packetSize && 4 + 4 * extensionHeader.length < buffer.Length;
      assert !(at >= buffer.Length && extensionHeader.length > 0);
      assert !(at >= packetSize && extensionHeader.length > 0);
      assert buffer[..][at..at + 4 * extensionHeader.length] == buffer[at..at + 4 * extensionHeader.length];
      return buffer[at..at + 4 * extensionHeader.length];
    }

    /** Fills the span `extension_data` hands out. */
    method WriteExtensionData(data: seq<Byte>)
      requires Valid() && fields.extended && |data| == 4 * extensionHeader.length
      modifies buffer
      ensures Valid() && PaddingOctets() == old(PaddingOctets())
      ensures View() == old(View()).(extension := Some(old(View()).extension.value.(data := data)))
    {
      hide Layout.Framed, Splice, Relocated;
      ghost var b, s := buffer[..], Shape();
      FramedFits(b, s);
      MemCopy(buffer, extensionOffset + 4, data);
      DataWritten(b, s, data, buffer[..]);
    }

    // ----- padding and payload -----

    /** A positive padding: the two updates of the 16-bit size, the count octet and the bit. */
    method AddPadding(n: Byte) returns (r: Result)
      requires Framed() && n > 0
      modifies this`packetSize, this`padding, buffer
      ensures packetSize == Wrapped16(old(Shape().PayloadEnd()) + n) && padding == n
      ensures r == if 0 < packetSize <= buffer.Length then Success else OutOfBounds
      ensures r == OutOfBounds ==> buffer[..] == old(buffer[..])
      ensures Framed() <==> old(Shape().PayloadEnd()) + n <= buffer.Length
      ensures old(Shape().PayloadEnd()) + n <= buffer.Length ==>
        && r == Success && View() == old(View()).(padding := n)
        && PaddingOctets() == old(buffer[..])[old(Shape().PayloadEnd())..old(Shape().PayloadEnd()) + n - 1] + [n]
        && buffer[FIXED_SIZE..payloadOffset] == old(buffer[FIXED_SIZE..payloadOffset])
    {
      hide Layout.Framed, Layout.View, WithPaddingBit, Wrapped16;
      ghost var b, s := buffer[..], Shape();
      FramedFits(b, s);
      ghost var s' := s.(padding := n);
      assert packetSize > padding && packetSize - padding == s.PayloadEnd() == s'.PayloadEnd();
      packetSize := packetSize - padding;
      if packetSize + n <= buffer.Length {
        Wrapped16Same(packetSize + n);
      }
      packetSize := Wrapped16(packetSize + n);
      padding := n;
      assert Shape() == s' && (s'.PacketSize() <= buffer.Length ==> packetSize == s'.PacketSize());
      assert payloadOffset == s'.PayloadOffset() == s.PayloadOffset() && s'.PacketSize() == s.PayloadEnd() + n;
      assert s'.PacketSize() <= buffer.Length ==> s'.Fits(buffer.Length);
      hide Layout.Shape.ExtensionSize, Layout.Shape.CsrcEnd;
      if !(0 < packetSize <= buffer.Length) {
        Overfull(b, s');
        return OutOfBounds;
      }
      buffer[packetSize - 1] := padding;
      buffer[0] := WithPaddingBit(buffer[0], true);
      if s'.PacketSize() <= buffer.Length {
        PaddingWritten(b, s, buffer[..], s');
        assert Framed();
      } else {
        Overfull(buffer[..], s');
      }
      return Success;
    }

    /**
     `set_padding_bytes`. The source compares the padding with the whole buffer only and the packet size wraps at
     16 bits, so the layout is kept exactly when the new total fits; and a padding of 0 clears the bit but keeps
     the old count and size.
     */
    method SetPaddingBytes(n: Byte) returns (r: Result)
      requires Framed()
      modifies this`packetSize, this`padding, buffer
      ensures r == BufferTooSmall <==> n > buffer.Length - FIXED_SIZE
      ensures r == BufferTooSmall ==> buffer[..] == old(buffer[..]) && unchanged(this)
      ensures r in {Success, BufferTooSmall, OutOfBounds}
      ensures r == OutOfBounds <==>
        (0 < n <= buffer.Length - FIXED_SIZE && !(0 < Wrapped16(old(Shape().PayloadEnd()) + n) <= buffer.Length))
      ensures r == OutOfBounds ==> buffer[..] == old(buffer[..]) && !Framed()
      ensures 0 < n <= buffer.Length - FIXED_SIZE ==>
        packetSize == Wrapped16(old(Shape().PayloadEnd()) + n) && padding == n
      ensures r == Success && n > 0 ==> (Framed() <==> old(Shape().PayloadEnd()) + n <= buffer.Length)
      ensures 0 < n <= buffer.Length - FIXED_SIZE && old(Shape().PayloadEnd()) + n <= buffer.Length ==>
        && r == Success && View() == old(View()).(padding := n)
        && PaddingOctets() == old(buffer[..])[old(Shape().PayloadEnd())..old(Shape().PayloadEnd()) + n - 1] + [n]
        && buffer[FIXED_SIZE..payloadOffset] == old(buffer[FIXED_SIZE..payloadOffset])
      ensures r == Success && n == 0 ==> packetSize == old(packetSize) && padding == old(padding)
      ensures r == Success && n == 0 ==>
        && (Framed() <==> old(padding) == 0)
        && Decode(Wire()) == Some(old(View()).(padding := 0,
             payload := old(buffer[..])[old(Shape().PayloadOffset())..old(packetSize)]))
    {
      hide Layout.Framed, Layout.View, Decode, WithPaddingBit, Stamped, Wrapped16;
      ghost var b, s := buffer[..], Shape();
      FramedFits(b, s);
      if n > buffer.Length - FIXED_SIZE {
        return BufferTooSmall;
      }
      if n > 0 {
        r := AddPadding(n);
        return;
      }
      buffer[0] := WithPaddingBit(buffer[0], false);
      assert Shape() == s;
      Unpadded(b, s, buffer[..]);
      WireOf(s.(payloadSize := s.payloadSize + s.padding, padding := 0));
      return Success;
    }

    /** `set_payload_size`: the count octet is written even when the padding is 0, over whatever is last. */
    method SetPayloadSize(size: U16) returns (r: Result)
      requires Framed()
      modifies this`payloadSize, this`packetSize, buffer
      ensures r in {Success, BufferTooSmall}
      ensures r == Success <==> Size(old(View())) - old(payloadSize) + size <= buffer.Length
      ensures r != Success ==> buffer[..] == old(buffer[..]) && unchanged(this)
      ensures 0 < packetSize <= buffer.Length
      ensures r == Success ==> payloadSize == size && packetSize == payloadOffset + size + padding
      ensures r == Success ==> buffer[..] == old(buffer[..])[packetSize - 1 := padding]
      ensures r == Success && size + padding > 0 ==>
        && Framed()
        && View() == old(View()).(payload := Counted(old(buffer[..]), payloadOffset, size, padding))
      ensures r == Success && size + padding == 0 ==>
        (Framed() && View() == old(View()).(payload := []) <==> old(buffer[payloadOffset - 1]) == 0)
    {
      hide Layout.Framed, Layout.View, Counted, Size;
      ghost var b, s := buffer[..], Shape();
      FramedFits(b, s);
      var end := payloadOffset + size + padding;
      if end > buffer.Length {
        return BufferTooSmall;
      }
      payloadSize := size;
      packetSize := end;
      buffer[packetSize - 1] := padding;
      ghost var s' := s.(payloadSize := size);
      assert Shape() == s' && packetSize == s'.PacketSize() && payloadOffset == s'.PayloadOffset();
      assert s'.Fits(buffer.Length) && s'.PayloadOffset() == s.PayloadOffset();
      hide Layout.Shape.ExtensionSize, Layout.Shape.CsrcEnd;
      SizeWritten(b, s, buffer[..], s');
      assert size + padding > 0 ==> Framed();
      return Success;
    }

    /** `payload`, with the source's assertions. */
    method Payload() returns (data: seq<Byte>)
      requires Framed()
      ensures data == View().payload
    {
      FramedFits(buffer[..], Shape());
      assert payloadSize < packetSize && payloadSize < buffer.Length;
      assert !(payloadOffset >= buffer.Length && payloadSize > 0);
      assert !(payloadOffset >= packetSize && payloadSize > 0);
      return buffer[payloadOffset..payloadOffset + payloadSize];
    }

    /** Fills the span `payload` hands out. */
    method WritePayload(data: seq<Byte>)
      requires Framed() && |data| == payloadSize
      modifies buffer
      ensures Framed() && View() == old(View()).(payload := data)
      ensures PaddingOctets() == old(PaddingOctets())
    {
      hide Layout.Framed, Layout.View, Splice;
      ghost var b, s := buffer[..], Shape();
      FramedFits(b, s);
      MemCopy(buffer, payloadOffset, data);
      PayloadWritten(b, s, data, buffer[..]);
    }

    /** `packet`: stamps the version and hands out the octets. */
    method ToWire() returns (octets: seq<Byte>)
      requires Framed()
      modifies buffer
      ensures Framed() && View() == old(View()) && buffer[1..] == old(buffer[1..])
      ensures octets == old(Wire()) == Wire()
      ensures Decode(octets) == Some(View()) && |octets| == Size(View())
      ensures LaidOut(octets, View())
    {
      hide Layout.Framed, Layout.View, Decode, LaidOut;
      ghost var b, s := buffer[..], Shape();
      FramedFits(b, s);
      FramedIsWire();
      buffer[0] := WithVersion2(buffer[0]);
      assert packetSize <= buffer.Length;
      VersionWritten(b, s, buffer[..]);
      octets := buffer[..packetSize];
      assert octets == Stamped(b[..packetSize]);
      FramedIsWire();
      DecodesIffLaidOut(octets, View());
    }

    // ----- parsing -----

    /** `extract_csrc`. */
    method ExtractCsrc()
      requires fields.csrcCount <= MAX_CSRC && FIXED_SIZE + 4 * fields.csrcCount <= buffer.Length
      modifies this`csrc
      ensures csrc == Words(buffer[FIXED_SIZE..FIXED_SIZE + 4 * fields.csrcCount])
    {
      csrc := [];
      var at, idx := FIXED_SIZE, 0;
      while idx < fields.csrcCount
        invariant 0 <= idx <= fields.csrcCount && at == FIXED_SIZE + 4 * idx
        invariant csrc == Words(buffer[FIXED_SIZE..at])
      {
        csrc := csrc + [Read32(buffer[..], at)];
        WordsOneMore(buffer[..], at);
        at := at + 4;
        idx := idx + 1;
      }
    }

    /**
     `parse(packet_size)`: reads the first `size` octets of the buffer, and of an extension header its four
     octets even if the packet ends before them. The answers in the order of the checks, then what success means.
     */
    method Parse(size: nat) returns (r: Result)
      requires Readable(buffer[..], size) && buffer.Length <= MAX_BUFFER
      modifies this
      ensures r == BufferTooSmall <==> size < FIXED_SIZE
      ensures r == InvalidRtpHeader <==> size >= FIXED_SIZE && Malformed(buffer[..], size)
      ensures r == ParseBufferOverflow <==>
        size >= FIXED_SIZE && !Malformed(buffer[..], size) && Overlong(buffer[..], size)
      ensures r == ParseExtensionOverflow <==> LeadPasses(buffer[..], size) && ExtensionOverlong(buffer[..], size)
      ensures r == NarrowingFailed <==> LeadPasses(buffer[..], size) && Unnarrowable(buffer[..], size)
      ensures r in {Success, BufferTooSmall, InvalidRtpHeader, ParseBufferOverflow, ParseExtensionOverflow,
                    NarrowingFailed}
      ensures r == Success <==> Acceptable(buffer[..size])
      ensures r == Success ==> Framed() && View() == Decode(buffer[..size]).value && csrc == View().csrc
      ensures packetSize == size && (r == Success ==> Wire() == buffer[..size])
      ensures r != Success ==> payloadSize == 0
      ensures r in {BufferTooSmall, InvalidRtpHeader, ParseBufferOverflow} ==> csrc == []
      ensures r == Success ==>
        (Valid() <==> fields.extended || old(extensionOffset) == FIXED_SIZE + 4 * fields.csrcCount)
      ensures r == Verdict(buffer[..], size)
    {
      hide Layout.Framed, Layout.View, Acceptable, Decode, Words, ShapeOf, Stamped, Verdict, ParsedShape, PayloadStart;
      Reset();
      packetSize := size;
      r := ParsePacket();
      VerdictOf(buffer[..], size);
      VerdictAnswers(buffer[..], size);
      hide Malformed, Overlong, ExtensionOverlong, Unnarrowable, LeadPasses;
      assert buffer[..][..size] == buffer[..size];
      if r == Success {
        ParsedShapeIs(buffer[..], size, Shape());
        ParsedFramed(buffer[..], size);
      }
    }

    method Reset()
      modifies this`fields, this`csrc, this`extensionHeader, this`padding, this`payloadOffset, this`payloadSize
      ensures fields == NO_FIELDS && extensionHeader == NO_EXTENSION && csrc == []
      ensures padding == 0 && payloadOffset == FIXED_SIZE && payloadSize == 0
    {
      payloadOffset := 0;
      fields, csrc, extensionHeader := NO_FIELDS, [], NO_EXTENSION;
      padding, payloadOffset, payloadSize := 0, FIXED_SIZE, 0;
    }

    /** The part of `parse_pkt` that reads the fixed fields behind the first octet. */
    method ReadFields()
      requires buffer.Length >= FIXED_SIZE
      modifies this`fields
      ensures fields == FixedHeader(Read32(buffer[..], 4), Read32(buffer[..], 8), Read16(buffer[..], 2),
                old(fields.csrcCount), PayloadType(buffer[1]), old(fields.extended), MarkerBit(buffer[1]))
    {
      fields := fields.(marked := MarkerBit(buffer[1]));
      fields := fields.(payloadType := PayloadType(buffer[1]));
      fields := fields.(sequence := Read16(buffer[..], 2));
      fields := fields.(timestamp := Read32(buffer[..], 4));
      fields := fields.(ssrc := Read32(buffer[..], 8));
    }

    /** The part of `parse_pkt` up to the CSRC list: the first octet and the padding count. */
    method ParseLead() returns (r: Result)
      requires Readable(buffer[..], packetSize) && padding == 0
      modifies this`padding, this`payloadOffset, this`fields
      ensures r == Success ==>
        && packetSize >= FIXED_SIZE && payloadOffset == FIXED_SIZE + 4 * fields.csrcCount <= packetSize
        && fields.extended == ExtensionBit(buffer[0]) && fields.csrcCount == Count(buffer[0])
        && padding == (if PaddingBit(buffer[0]) then buffer[packetSize - 1] else 0)
        && LeadPasses(buffer[..], packetSize)
      ensures r == BufferTooSmall <==> packetSize < FIXED_SIZE
      ensures r == InvalidRtpHeader <==> packetSize >= FIXED_SIZE && Malformed(buffer[..], packetSize)
      ensures r == ParseBufferOverflow <==>
        packetSize >= FIXED_SIZE && !Malformed(buffer[..], packetSize) && Overlong(buffer[..], packetSize)
      ensures r != Success ==> r == Verdict(buffer[..], packetSize)
    {
      hide PaddingBit, ExtensionBit, Version, Count, Read16;
      if packetSize < FIXED_SIZE {
        return BufferTooSmall;
      }
      payloadOffset := FIXED_SIZE;
      if Version(buffer[0]) != 2 {
        return InvalidRtpHeader;
      }
      if PaddingBit(buffer[0]) {
        padding := buffer[packetSize - 1];
        if padding == 0 {
          return InvalidRtpHeader;
        }
        if packetSize < padding + FIXED_SIZE {
          return ParseBufferOverflow;
        }
      }
      fields := fields.(extended := ExtensionBit(buffer[0]), csrcCount := Count(buffer[0]));
      payloadOffset := payloadOffset + 4 * fields.csrcCount;
      if payloadOffset > packetSize {
        return ParseBufferOverflow;
      }
      return Success;
    }

    /** `parse_pkt` on a reset object. */
    method ParsePacket() returns (r: Result)
      requires Readable(buffer[..], packetSize) && buffer.Length <= MAX_BUFFER
      requires extensionHeader == NO_EXTENSION && padding == 0
      modifies this
      ensures packetSize == old(packetSize) && r == Verdict(buffer[..], packetSize)
      ensures r != Success ==> payloadSize == old(payloadSize)
      ensures r in {BufferTooSmall, InvalidRtpHeader, ParseBufferOverflow} ==> csrc == old(csrc)
      ensures r == Success ==>
        && LeadPasses(buffer[..], packetSize) && ParsedShape(buffer[..], packetSize, Shape())
        && payloadOffset == PayloadStart(buffer[..])
        && csrc == Words(buffer[..][FIXED_SIZE..FIXED_SIZE + 4 * fields.csrcCount])
        && extensionOffset == (if fields.extended then FIXED_SIZE + 4 * fields.csrcCount else old(extensionOffset))
    {
      hide Words, Read16, Read32, PaddingBit, ExtensionBit, Version, PayloadType, MarkerBit, Count;
      r := ParseLead();
      if r != Success {
        return;
      }
      ExtractCsrc();
      ReadFields();
      if fields.extended {
        r := ParseExtension();
        if r != Success {
          return;
        }
      }
      if packetSize - payloadOffset - padding < 0 {
        return NarrowingFailed;
      }
      payloadSize := packetSize - payloadOffset - padding;
      assert payloadSize < packetSize;
      return Success;
    }

    /** `parse_extension`, up to its tail call. */
    method ParseExtension() returns (r: Result)
      requires payloadOffset + 4 <= buffer.Length
      modifies this`extensionOffset, this`payloadOffset, this`extensionHeader
      ensures extensionOffset == old(payloadOffset)
      ensures extensionHeader ==
        ExtensionHeader(Read16(buffer[..], extensionOffset), Read16(buffer[..], extensionOffset + 2))
      ensures var end := extensionOffset + 4 + 4 * extensionHeader.length;
              r == if end > MAX_BUFFER then NarrowingFailed
                   else if end > packetSize then ParseExtensionOverflow else Success
      ensures r == Success ==> payloadOffset == extensionOffset + 4 + 4 * extensionHeader.length
    {
      extensionOffset := payloadOffset;
      extensionHeader := ExtensionHeader(Read16(buffer[..], extensionOffset), Read16(buffer[..], extensionOffset + 2));
      var dataOffset := extensionOffset + 4;
      if dataOffset + extensionHeader.length * 4 > MAX_BUFFER {
        return NarrowingFailed;
      }
      payloadOffset := dataOffset + extensionHeader.length * 4;
      if payloadOffset > packetSize {
        return ParseExtensionOverflow;
      }
      return Success;
    }
  }

  /** The checks in front of the extension header: size, version, padding count and CSRC list. */
  predicate LeadPasses(b: seq<Byte>, n: nat)
    requires n <= |b|
  {
    && n >= FIXED_SIZE && Version(b[0]) == 2 && CsrcEnd(b) <= n
    && (PaddingBit(b[0]) ==> b[n - 1] != 0 && FIXED_SIZE + b[n - 1] <= n)
  }

  /** Behind those checks an extension header is read, whether the packet holds it or not: the buffer must. */
  predicate Readable(b: seq<Byte>, n: nat) {
    n <= |b| && (LeadPasses(b, n) && ExtensionBit(b[0]) ==> CsrcEnd(b) + 4 <= |b|)
  }

  /** In a buffer of 76 octets, the longest header and an extension header, every parse stays inside. */
  lemma BigEnough(b: seq<Byte>, n: nat)
    requires FIXED_SIZE + 4 * MAX_CSRC + 4 <= |b| && n <= |b|
    ensures Readable(b, n)
  {
  }

  /** The version is not 2, or the padding bit is set over a padding count of 0. */
  predicate Malformed(b: seq<Byte>, n: nat)
    requires FIXED_SIZE <= n <= |b|
  {
    Version(b[0]) != 2 || (PaddingBit(b[0]) && b[n - 1] == 0)
  }

  /** The padding does not fit behind the fixed octets, or the CSRC list does not. */
  predicate Overlong(b: seq<Byte>, n: nat)
    requires FIXED_SIZE <= n <= |b|
  {
    (PaddingBit(b[0]) && FIXED_SIZE + b[n - 1] > n) || FIXED_SIZE + 4 * Count(b[0]) > n
  }

  /** The data of the extension passes the end of the packet, at an offset that 16 bits still hold. */
  predicate ExtensionOverlong(b: seq<Byte>, n: nat)
    requires Readable(b, n) && LeadPasses(b, n)
  {
    && ExtensionBit(b[0])
    && var at := FIXED_SIZE + 4 * Count(b[0]);
       n < at + 4 + 4 * Read16(b, at + 2) <= MAX_BUFFER
  }

  /** A number that does not fit 16 bits: an offset beyond them, or a payload of negative size. */
  predicate Unnarrowable(b: seq<Byte>, n: nat)
    requires Readable(b, n) && LeadPasses(b, n)
  {
    var at, pad := FIXED_SIZE + 4 * Count(b[0]), if PaddingBit(b[0]) then b[n - 1] else 0;
    if ExtensionBit(b[0]) then
      var start := at + 4 + 4 * Read16(b, at + 2);
      start > MAX_BUFFER || start <= n < start + pad
    else n < at + pad
  }

  /** The order of the complaints, read off the octets. */
  lemma VerdictAnswers(b: seq<Byte>, n: nat)
    requires Readable(b, n) && |b| <= MAX_BUFFER
    ensures LeadPasses(b, n) <==> n >= FIXED_SIZE && !Malformed(b, n) && !Overlong(b, n)
    ensures var r := Verdict(b, n);
            && (r == BufferTooSmall <==> n < FIXED_SIZE)
            && (r == InvalidRtpHeader <==> n >= FIXED_SIZE && Malformed(b, n))
            && (r == ParseBufferOverflow <==> n >= FIXED_SIZE && !Malformed(b, n) && Overlong(b, n))
            && (r == ParseExtensionOverflow <==> LeadPasses(b, n) && ExtensionOverlong(b, n))
            && (r == NarrowingFailed <==> LeadPasses(b, n) && Unnarrowable(b, n))
            && r in {Success, BufferTooSmall, InvalidRtpHeader, ParseBufferOverflow, ParseExtensionOverflow,
                     NarrowingFailed}
  {
    hide PaddingBit, ExtensionBit, Version, Count, Read16;
  }

  /** What `parse` answers about the first `n` octets of `b`; the first complaint wins. */
  function Verdict(b: seq<Byte>, n: nat): Result
    requires Readable(b, n)
  {
    if n < FIXED_SIZE then BufferTooSmall
    else
      var pad := if PaddingBit(b[0]) then b[n - 1] else 0;
      if Version(b[0]) != 2 || (PaddingBit(b[0]) && pad == 0) then InvalidRtpHeader
      else if FIXED_SIZE + pad > n || CsrcEnd(b) > n then ParseBufferOverflow
      else
        var start := PayloadStart(b);
        if ExtensionBit(b[0]) && n < start <= MAX_BUFFER then ParseExtensionOverflow
        else if start + pad > n then NarrowingFailed
        else Success
  }

  /** The verdict is positive exactly on the packets the format admits. */
  lemma VerdictOf(b: seq<Byte>, n: nat)
    requires Readable(b, n) && |b| <= MAX_BUFFER
    ensures Verdict(b, n) == Success <==> Acceptable(b[..n])
    ensures Acceptable(b[..n]) ==> CsrcEnd(b) <= n && PayloadStart(b[..n]) == PayloadStart(b) <= n
  {
    if n >= FIXED_SIZE && ExtensionBit(b[0]) && CsrcEnd(b) + 4 <= n {
      assert Read16(b[..n], CsrcEnd(b) + 2) == Read16(b, CsrcEnd(b) + 2);
    }
  }

  /** The fields, extension and sizes that `Parse` ends with. */
  predicate ParsedShape(b: seq<Byte>, n: nat, s: Shape)
    requires Readable(b, n) && LeadPasses(b, n)
  {
    var at := CsrcEnd(b);
    && s.fields == FixedHeader(Read32(b, 4), Read32(b, 8), Read16(b, 2), Count(b[0]), PayloadType(b[1]),
                               ExtensionBit(b[0]), MarkerBit(b[1]))
    && s.extension == (if ExtensionBit(b[0]) then ExtensionHeader(Read16(b, at), Read16(b, at + 2)) else NO_EXTENSION)
    && s.padding == (if PaddingBit(b[0]) then b[n - 1] else 0)
    && s.payloadSize == n - PayloadStart(b) - s.padding
  }

  lemma ParsedShapeIs(b: seq<Byte>, n: nat, s: Shape)
    requires Readable(b, n) && |b| <= MAX_BUFFER && Acceptable(b[..n])
    requires LeadPasses(b, n) && ParsedShape(b, n, s)
    ensures s == ShapeOf(b[..n])
    ensures Decode(b[..n]).value.csrc == Words(b[FIXED_SIZE..s.CsrcEnd()])
    ensures s.PayloadOffset() == PayloadStart(b) && s.PacketSize() == n && s.CsrcEnd() == CsrcEnd(b)
  {
    var w, at := b[..n], CsrcEnd(b);
    VerdictOf(b, n);
    assert Read16(w, 2) == Read16(b, 2) && Read32(w, 4) == Read32(b, 4) && Read32(w, 8) == Read32(b, 8);
    if ExtensionBit(b[0]) {
      assert Read16(w, at) == Read16(b, at) && Read16(w, at + 2) == Read16(b, at + 2);
    }
    PrefixSlice(b, n, FIXED_SIZE, at);
  }

  lemma FramedType(b: seq<Byte>, s: Shape)
    requires Layout.Framed(b, s)
    ensures s.fields.payloadType < 128
  {
  }

  lemma FieldsOfView(b: seq<Byte>, s: Shape)
    requires s.Fits(|b|)
    ensures var v, f := Layout.View(b, s), s.fields;
            && (v.marked, v.payloadType, v.sequence) == (f.marked, f.payloadType, f.sequence)
            && (v.timestamp, v.ssrc) == (f.timestamp, f.ssrc)
  {
  }

  lemma SequenceWritten(b: seq<Byte>, s: Shape, sequence: U16)
    requires Layout.Framed(b, s)
    ensures var b', s' := Splice(b, 2, Bytes16(sequence)), s.(fields := s.fields.(sequence := sequence));
            && Layout.Framed(b', s') && Layout.View(b', s') == Layout.View(b, s).(sequence := sequence)
            && b'[FIXED_SIZE..] == b[FIXED_SIZE..]
  {
    hide Layout.Framed, Layout.View, Bytes16, Bytes32;
    FramedFits(b, s);
    FramedType(b, s);
    var b', f := Splice(b, 2, Bytes16(sequence)), s.fields.(sequence := sequence);
    assert b'[2..4] == Bytes16(sequence);
    assert b'[4..8] == b[4..8];
    assert b'[8..12] == b[8..12];
    assert b'[FIXED_SIZE..] == b[FIXED_SIZE..];
    HeaderEdit(b, s, b', f);
    FieldsOfView(b, s);
  }

  lemma TimestampWritten(b: seq<Byte>, s: Shape, timestamp: U32)
    requires Layout.Framed(b, s)
    ensures var b', s' := Splice(b, 4, Bytes32(timestamp)), s.(fields := s.fields.(timestamp := timestamp));
            && Layout.Framed(b', s') && Layout.View(b', s') == Layout.View(b, s).(timestamp := timestamp)
            && b'[FIXED_SIZE..] == b[FIXED_SIZE..]
  {
    hide Layout.Framed, Layout.View, Bytes16, Bytes32;
    FramedFits(b, s);
    FramedType(b, s);
    var b', f := Splice(b, 4, Bytes32(timestamp)), s.fields.(timestamp := timestamp);
    assert b'[2..4] == b[2..4];
    assert b'[4..8] == Bytes32(timestamp);
    assert b'[8..12] == b[8..12];
    assert b'[FIXED_SIZE..] == b[FIXED_SIZE..];
    HeaderEdit(b, s, b', f);
    FieldsOfView(b, s);
  }

  lemma SsrcWritten(b: seq<Byte>, s: Shape, ssrc: U32)
    requires Layout.Framed(b, s)
    ensures var b', s' := Splice(b, 8, Bytes32(ssrc)), s.(fields := s.fields.(ssrc := ssrc));
            && Layout.Framed(b', s') && Layout.View(b', s') == Layout.View(b, s).(ssrc := ssrc)
            && b'[FIXED_SIZE..] == b[FIXED_SIZE..]
  {
    hide Layout.Framed, Layout.View, Bytes16, Bytes32;
    FramedFits(b, s);
    FramedType(b, s);
    var b', f := Splice(b, 8, Bytes32(ssrc)), s.fields.(ssrc := ssrc);
    assert b'[2..4] == b[2..4];
    assert b'[4..8] == b[4..8];
    assert b'[8..12] == Bytes32(ssrc);
    assert b'[FIXED_SIZE..] == b[FIXED_SIZE..];
    HeaderEdit(b, s, b', f);
    FieldsOfView(b, s);
  }

  lemma MarkerWritten(b: seq<Byte>, s: Shape, marked: bool)
    requires Layout.Framed(b, s)
    ensures var b', s' := b[1 := WithMarkerBit(b[1], marked)], s.(fields := s.fields.(marked := marked));
            && Layout.Framed(b', s') && Layout.View(b', s') == Layout.View(b, s).(marked := marked)
            && b'[FIXED_SIZE..] == b[FIXED_SIZE..]
  {
    hide Layout.Framed, Layout.View, Bytes16, Bytes32;
    FramedFits(b, s);
    FramedType(b, s);
    SecondOctet(b, s);
    var b' := b[1 := WithMarkerBit(b[1], marked)];
    assert b'[2..4] == b[2..4] && b'[4..8] == b[4..8] && b'[8..12] == b[8..12];
    assert b'[FIXED_SIZE..] == b[FIXED_SIZE..];
    HeaderEdit(b, s, b', s.fields.(marked := marked));
    FieldsOfView(b, s);
  }

  lemma WordsOneMore(b: seq<Byte>, at: nat)
    requires FIXED_SIZE <= at && at + 4 <= |b| && (at - FIXED_SIZE) % 4 == 0
    ensures Words(b[FIXED_SIZE..at + 4]) == Words(b[FIXED_SIZE..at]) + [Read32(b, at)]
  {
    var w := b[FIXED_SIZE..at + 4];
    assert w[..|w| - 4] == b[FIXED_SIZE..at];
    assert b[at..at + 4] == w[|w| - 4..|w|];
    Read32Frame(b, at, w, |w| - 4);
  }

  /** One round of the loop in `WriteCsrc`. */
  lemma SpliceWord(b: seq<Byte>, list: seq<U32>, idx: nat)
    requires idx < |list| && FIXED_SIZE + 4 * (idx + 1) <= |b|
    ensures Splice(Splice(b, FIXED_SIZE, BytesOfWords(list[..idx])), FIXED_SIZE + 4 * idx, Bytes32(list[idx]))
         == Splice(b, FIXED_SIZE, BytesOfWords(list[..idx + 1]))
  {
    assert list[..idx + 1] == list[..idx] + [list[idx]];
    BytesOfWordsSnoc(list[..idx], list[idx]);
    SpliceTwice(b, FIXED_SIZE, BytesOfWords(list[..idx]), Bytes32(list[idx]));
  }

  lemma SpliceTwice(b: seq<Byte>, at: nat, v: seq<Byte>, w: seq<Byte>)
    requires at + |v| + |w| <= |b|
    ensures Splice(Splice(b, at, v), at + |v|, w) == Splice(b, at, v + w)
  {
  }

  /** What `memmove` left, also when the guard skipped it because nothing was to be moved. */
  lemma MovedTo(b: seq<Byte>, b': seq<Byte>, dst: nat, src: nat, n: nat)
    requires dst + n <= |b| && src + n <= |b|
    requires b' == Relocated(b, dst, src, n)
    ensures b'[..dst] == b[..dst] && b'[dst..dst + n] == b[src..src + n]
  {
    SpliceSlices(b, dst, b[src..src + n]);
  }

  /** The three writes of `commit_csrc` together: the block move, the count, the words. */
  lemma Committed(b: seq<Byte>, s: Shape, list: seq<U32>, moved: seq<Byte>, counted: seq<Byte>,
                  b': seq<Byte>, s': Shape)
    requires Layout.Framed(b, s) && |list| <= MAX_CSRC
    requires s' == s.(fields := s.fields.(csrcCount := |list|)) && s'.Fits(|b|)
    requires moved == Relocated(b, s'.CsrcEnd(), s.CsrcEnd(), s.PacketSize() - s.CsrcEnd())
    requires counted == moved[0 := WithCount(moved[0], |list|)]
    requires b' == Splice(counted, FIXED_SIZE, BytesOfWords(list))
    ensures Layout.Framed(b', s')
    ensures Layout.View(b', s') == Layout.View(b, s).(csrc := list)
    ensures b'[s'.PayloadEnd()..s'.PacketSize()] == b[s.PayloadEnd()..s.PacketSize()]
  {
    hide Splice, Relocated, Layout.View, Layout.Framed, BytesOfWords, WithCount;
    FramedFits(b, s);
    var dst, src, n := s'.CsrcEnd(), s.CsrcEnd(), s.PacketSize() - s.CsrcEnd();
    assert dst + n == s'.PacketSize() && src + n == s.PacketSize();
    CommittedOctets(b, list, moved, counted, b', dst, src, n);
    CsrcStep(b, s, list, b', s');
  }

  lemma CommittedOctets(b: seq<Byte>, list: seq<U32>, moved: seq<Byte>, counted: seq<Byte>, b': seq<Byte>,
                        dst: nat, src: nat, n: nat)
    requires |list| <= MAX_CSRC && dst == FIXED_SIZE + 4 * |list| && dst + n <= |b| && src + n <= |b|
    requires moved == Relocated(b, dst, src, n)
    requires counted == moved[0 := WithCount(moved[0], |list|)]
    requires b' == Splice(counted, FIXED_SIZE, BytesOfWords(list))
    ensures b'[0] == WithCount(b[0], |list|) && b'[1..FIXED_SIZE] == b[1..FIXED_SIZE]
    ensures b'[FIXED_SIZE..dst] == BytesOfWords(list)
    ensures b'[dst..dst + n] == b[src..src + n]
  {
    hide Splice, Relocated, BytesOfWords;
    MovedTo(b, moved, dst, src, n);
    SpliceSlices(counted, FIXED_SIZE, BytesOfWords(list));
    CountedAndMoved(b, moved, counted, b', dst, n, src, |list|);
  }

  lemma CountedAndMoved(b: seq<Byte>, moved: seq<Byte>, counted: seq<Byte>, b': seq<Byte>,
                        dst: nat, n: nat, src: nat, count: nat)
    requires FIXED_SIZE <= dst && dst + n <= |b| && src + n <= |b| && count < 16
    requires |b| == |moved| == |counted| == |b'|
    requires moved[..dst] == b[..dst] && moved[dst..dst + n] == b[src..src + n]
    requires counted == moved[0 := WithCount(moved[0], count)]
    requires b'[..FIXED_SIZE] == counted[..FIXED_SIZE] && b'[dst..] == counted[dst..]
    ensures b'[0] == WithCount(b[0], count) && b'[1..FIXED_SIZE] == b[1..FIXED_SIZE]
    ensures b'[dst..dst + n] == b[src..src + n]
  {
    assert b'[0] == b'[..FIXED_SIZE][0] == counted[0];
    assert moved[0] == moved[..dst][0] == b[0];
    assert b'[1..FIXED_SIZE] == b'[..FIXED_SIZE][1..] == counted[1..FIXED_SIZE];
    UpdatedSlice(moved, 0, counted[0], 1, FIXED_SIZE);
    SubSlice(moved, 1, FIXED_SIZE, 0, dst);
    SubSlice(b, 1, FIXED_SIZE, 0, dst);
    TailSlice(counted, b', dst, dst, dst + n);
    UpdatedSlice(moved, 0, counted[0], dst, dst + n);
  }

  /** The writes of `set_extension` together: the block move, the extension header, the bit. */
  lemma Extended(b: seq<Byte>, s: Shape, moved: seq<Byte>, written: seq<Byte>, b': seq<Byte>, s': Shape)
    requires Layout.Framed(b, s) && s'.fields.extended && s'.Fits(|b|)
    requires s' == s.(fields := s.fields.(extended := true), extension := s'.extension)
    requires moved == Relocated(b, s'.PayloadOffset(), s.PayloadOffset(), s.PacketSize() - s.PayloadOffset())
    requires written == Splice(moved, s.CsrcEnd(), Bytes16(s'.extension.id) + Bytes16(s'.extension.length))
    requires b' == written[0 := WithExtensionBit(written[0], true)]
    ensures Layout.Framed(b', s')
    ensures Layout.View(b', s') == Layout.View(b, s).(extension := Some(Extension(
              s'.extension.id, s'.extension.length, b[s.CsrcEnd() + 4..s.CsrcEnd() + 4 + 4 * s'.extension.length])))
    ensures b'[s'.PayloadEnd()..s'.PacketSize()] == b[s.PayloadEnd()..s.PacketSize()]
  {
    hide Splice, Relocated, Layout.View, Layout.Framed, Bytes16, WithExtensionBit;
    FramedFits(b, s);
    var at, dst, src, n := s.CsrcEnd(), s'.PayloadOffset(), s.PayloadOffset(), s.payloadSize + s.padding;
    var h := Bytes16(s'.extension.id) + Bytes16(s'.extension.length);
    assert dst + n == s'.PacketSize() && src + n == s.PacketSize() && at == s'.CsrcEnd();
    MovedTo(b, moved, dst, src, n);
    ExtensionWritten(b, moved, written, b', at, h, dst, src, n);
    ExtensionStep(b, s, b', s');
  }

  lemma ExtensionWritten(b: seq<Byte>, moved: seq<Byte>, written: seq<Byte>, b': seq<Byte>,
                         at: nat, h: seq<Byte>, dst: nat, src: nat, n: nat)
    requires FIXED_SIZE <= at && |h| == 4 && at + 4 <= dst && dst + n <= |b| == |moved| && src + n <= |b|
    requires moved[..dst] == b[..dst] && moved[dst..dst + n] == b[src..src + n]
    requires written == Splice(moved, at, h)
    requires b' == written[0 := WithExtensionBit(written[0], true)]
    ensures b'[0] == WithExtensionBit(b[0], true) && b'[1..at] == b[1..at]
    ensures b'[at..at + 4] == h && b'[at + 4..dst] == b[at + 4..dst]
    ensures b'[dst..dst + n] == b[src..src + n]
  {
    SpliceSlices(moved, at, h);
    assert written[0] == written[..at][0] == moved[..at][0] == moved[..dst][0] == b[0];
    UpdatedSlice(written, 0, b'[0], 1, at);
    assert written[1..at] == written[..at][1..] == moved[..at][1..] == moved[1..at];
    SubSlice(moved, 1, at, 0, dst);
    SubSlice(b, 1, at, 0, dst);
    UpdatedSlice(written, 0, b'[0], at, at + 4);
    UpdatedSlice(written, 0, b'[0], at + 4, dst);
    TailSlice(moved, written, at + 4, at + 4, dst);
    SubSlice(moved, at + 4, dst, 0, dst);
    SubSlice(b, at + 4, dst, 0, dst);
    UpdatedSlice(written, 0, b'[0], dst, dst + n);
    TailSlice(moved, written, at + 4, dst, dst + n);
  }

  /** On an extended packet the bit is set already. */
  lemma AlreadyExtended(b: seq<Byte>, s: Shape)
    requires Layout.Framed(b, s) && s.fields.extended
    ensures WithExtensionBit(b[0], true) == b[0]
    ensures b[s.CsrcEnd()..s.CsrcEnd() + 4] == Bytes16(s.extension.id) + Bytes16(s.extension.length)
  {
    hide Layout.Framed, ExtensionBit, WithExtensionBit, Bytes16;
    FramedFlags(b, s);
    FramedOctets(b, s);
    BitAlreadySet(b[0]);
  }

  lemma SpliceFirst(b: seq<Byte>, at: nat, v: seq<Byte>, w: seq<Byte>)
    requires at + |v| + |w| <= |b| && b[at + |v|..at + |v| + |w|] == w
    ensures Splice(b, at, v) == Splice(b, at, v + w)
  {
    Layout.SliceSplit(b, at + |v|, at + |v| + |w|, |b|);
  }

  lemma SpliceSecond(b: seq<Byte>, at: nat, v: seq<Byte>, w: seq<Byte>)
    requires at + |v| + |w| <= |b| && b[at..at + |v|] == v
    ensures Splice(b, at + |v|, w) == Splice(b, at, v + w)
  {
    Layout.SliceSplit(b, 0, at, at + |v|);
  }

  lemma SpliceSelf(b: seq<Byte>, at: nat, n: nat)
    requires at + n <= |b|
    ensures Splice(b, at, b[at..at + n]) == b
  {
  }

  lemma NotMoved(b: seq<Byte>, at: nat, n: nat)
    requires at + n <= |b|
    ensures Relocated(b, at, at, n) == b
  {
    SpliceSelf(b, at, n);
  }

  lemma IdWritten(b: seq<Byte>, s: Shape, b': seq<Byte>, s': Shape)
    requires Layout.Framed(b, s) && s.fields.extended
    requires s' == s.(extension := s.extension.(id := s'.extension.id))
    requires b' == Splice(b, s.CsrcEnd(), Bytes16(s'.extension.id))
    ensures Layout.Framed(b', s')
    ensures Layout.View(b', s') == Layout.View(b, s).(extension :=
              Some(Layout.View(b, s).extension.value.(id := s'.extension.id)))
    ensures b'[s'.PayloadEnd()..s'.PacketSize()] == b[s.PayloadEnd()..s.PacketSize()]
  {
    hide Splice, Relocated, Layout.Framed;
    FramedFits(b, s);
    var at, len := s.CsrcEnd(), Bytes16(s.extension.length);
    AlreadyExtended(b, s);
    SubSlice(b, at + 2, at + 4, at, at + 4);
    SpliceFirst(b, at, Bytes16(s'.extension.id), len);
    NotMoved(b, s.PayloadOffset(), s.payloadSize + s.padding);
    SpliceSlices(b, at, Bytes16(s'.extension.id));
    assert b'[0] == b'[..at][0] == b[..at][0] == b[0];
    Extended(b, s, b, b', b', s');
  }

  /** A new length moves the payload and what follows it, and nothing before. */
  lemma LengthOnly(s: Shape, length: U16)
    requires s.fields.extended
    ensures var s' := s.(extension := s.extension.(length := length));
            && s'.CsrcEnd() == s.CsrcEnd() && s'.PayloadOffset() == s.CsrcEnd() + 4 + 4 * length
            && s'.PacketSize() == s'.PayloadOffset() + s.payloadSize + s.padding
            && s.PacketSize() == s.PayloadOffset() + s.payloadSize + s.padding
            && s'.PayloadEnd() == s'.PayloadOffset() + s.payloadSize
            && s.PayloadEnd() == s.PayloadOffset() + s.payloadSize
  {
  }

  lemma LengthWritten(b: seq<Byte>, s: Shape, moved: seq<Byte>, b': seq<Byte>, s': Shape)
    requires Layout.Framed(b, s) && s.fields.extended && s'.Fits(|b|)
    requires s' == s.(extension := s.extension.(length := s'.extension.length))
    requires moved == Relocated(b, s'.PayloadOffset(), s.PayloadOffset(), s.PacketSize() - s.PayloadOffset())
    requires b' == Splice(moved, s.CsrcEnd() + 2, Bytes16(s'.extension.length))
    ensures Layout.Framed(b', s')
    ensures Layout.View(b', s') == Layout.View(b, s).(extension := Some(Extension(
              s.extension.id, s'.extension.length, b[s.CsrcEnd() + 4..s.CsrcEnd() + 4 + 4 * s'.extension.length])))
    ensures b'[s'.PayloadEnd()..s'.PacketSize()] == b[s.PayloadEnd()..s.PacketSize()]
  {
    hide Splice, Relocated, Layout.View, Layout.Framed;
    FramedFits(b, s);
    var at, dst, src, n := s.CsrcEnd(), s'.PayloadOffset(), s.PayloadOffset(), s.payloadSize + s.padding;
    var id := Bytes16(s.extension.id);
    assert dst + n == s'.PacketSize() && src + n == s.PacketSize();
    AlreadyExtended(b, s);
    MovedTo(b, moved, dst, src, n);
    SubSlice(moved, at, at + 2, 0, dst);
    SubSlice(b, at, at + 2, 0, dst);
    SubSlice(b, at, at + 2, at, at + 4);
    SpliceSecond(moved, at, id, Bytes16(s'.extension.length));
    SpliceSlices(moved, at + 2, Bytes16(s'.extension.length));
    assert b'[0] == b'[..at + 2][0] == moved[..at + 2][0] == moved[..dst][0] == b[0];
    Extended(b, s, moved, b', b', s');
  }

  lemma DataWritten(b: seq<Byte>, s: Shape, data: seq<Byte>, b': seq<Byte>)
    requires Layout.Framed(b, s) && s.fields.extended && |data| == 4 * s.extension.length
    requires b' == Splice(b, s.CsrcEnd() + 4, data)
    ensures Layout.Framed(b', s)
    ensures Layout.View(b', s) == Layout.View(b, s).(extension :=
              Some(Layout.View(b, s).extension.value.(data := data)))
    ensures b'[s.PayloadEnd()..s.PacketSize()] == b[s.PayloadEnd()..s.PacketSize()]
  {
    var at, end := s.CsrcEnd(), s.PayloadOffset();
    SpliceSlices(b, at + 4, data);
    assert at + 4 + |data| == end;
    AlreadyExtended(b, s);
    SpliceSelf(b, end, s.payloadSize + s.padding);
    assert b'[..at] == b'[..at + 4][..at] == b[..at];
    assert b'[0] == b'[..at][0] == b[..at][0] == b[0];
    assert b'[1..at] == b'[..at][1..] == b[..at][1..] == b[1..at];
    SubSlice(b, at, at + 4, 0, at + 4);
    SubSlice(b', at, at + 4, 0, at + 4);
    TailSlice(b, b', end, end, s.PacketSize());
    ExtensionStep(b, s, b', s);
  }

  lemma Overfull(b: seq<Byte>, s: Shape)
    requires s.PacketSize() > |b|
    ensures !Layout.Framed(b, s)
  {
  }

  lemma PaddingWritten(b: seq<Byte>, s: Shape, b': seq<Byte>, s': Shape)
    requires Layout.Framed(b, s) && s' == s.(padding := s'.padding) && s'.padding > 0 && s'.Fits(|b|)
    requires var counted := b[s'.PacketSize() - 1 := s'.padding];
             b' == counted[0 := WithPaddingBit(counted[0], true)]
    ensures Layout.Framed(b', s') && Layout.View(b', s') == Layout.View(b, s).(padding := s'.padding)
    ensures b'[s'.PayloadEnd()..s'.PacketSize()] == b[s.PayloadEnd()..s'.PacketSize() - 1] + [s'.padding]
    ensures b'[FIXED_SIZE..s.PayloadOffset()] == b[FIXED_SIZE..s.PayloadOffset()]
  {
    hide Layout.View;
    FramedFits(b, s);
    var n, m, last := s.PayloadOffset(), s.PayloadEnd(), s'.PacketSize() - 1;
    assert s'.PayloadOffset() == n && s'.PayloadEnd() == m <= last;
    FlagsOf(b, s);
    StampedFlags(b[0], s.padding != 0, s.fields.extended, s.fields.csrcCount, true, 0);
    assert b'[1..n] == b[1..n] && b'[FIXED_SIZE..n] == b[FIXED_SIZE..n] && b'[n..m] == b[n..m];
    PayloadStep(b, s, b', s');
  }

  lemma Unpadded(b: seq<Byte>, s: Shape, b': seq<Byte>)
    requires Layout.Framed(b, s) && b' == b[0 := WithPaddingBit(b[0], false)]
    ensures Layout.Framed(b', s) <==> s.padding == 0
    ensures var s' := s.(payloadSize := s.payloadSize + s.padding, padding := 0);
            && Layout.Framed(b', s') && s'.PacketSize() == s.PacketSize()
            && Layout.View(b', s') == Layout.View(b, s).(payload := b[s.PayloadOffset()..s.PacketSize()], padding := 0)
  {
    hide Layout.View;
    FramedFits(b, s);
    var s' := s.(payloadSize := s.payloadSize + s.padding, padding := 0);
    UnpadStep(b, s, b', s');
    FramedFlags(b', s');
    if Layout.Framed(b', s) {
      FramedFlags(b', s);
    }
  }

  lemma SizeWritten(b: seq<Byte>, s: Shape, b': seq<Byte>, s': Shape)
    requires Layout.Framed(b, s) && s' == s.(payloadSize := s'.payloadSize) && s'.Fits(|b|)
    requires b' == b[s'.PacketSize() - 1 := s'.padding]
    ensures s'.payloadSize + s'.padding > 0 ==>
      && Layout.Framed(b', s')
      && Layout.View(b', s')
      == Layout.View(b, s).(payload := Counted(b, s.PayloadOffset(), s'.payloadSize, s.padding))
    ensures s'.payloadSize + s'.padding == 0 ==>
      (Layout.Framed(b', s') && Layout.View(b', s') == Layout.View(b, s).(payload := []) <==>
        b[s.PayloadOffset() - 1] == 0)
  {
    hide Layout.View, Layout.Framed, Counted;
    FramedFits(b, s);
    if s'.payloadSize + s'.padding > 0 {
      RoomSized(b, s, b', s');
    } else {
      LastHeaderOctet(b, s, b', s');
    }
  }

  /** A payload or padding that is not empty: the octet written is the last of it. */
  lemma RoomSized(b: seq<Byte>, s: Shape, b': seq<Byte>, s': Shape)
    requires Layout.Framed(b, s) && s' == s.(payloadSize := s'.payloadSize) && s'.Fits(|b|)
    requires s'.payloadSize + s'.padding > 0 && b' == b[s'.PacketSize() - 1 := s'.padding]
    ensures Layout.Framed(b', s')
    ensures Layout.View(b', s')
         == Layout.View(b, s).(payload := Counted(b, s.PayloadOffset(), s'.payloadSize, s.padding))
  {
    hide Layout.View, Layout.Framed, Counted;
    FramedFits(b, s);
    var n, last := s.PayloadOffset(), s'.PacketSize() - 1;
    FlagsOf(b, s);
    assert s'.PayloadOffset() == n <= last;
    UpdatedSlice(b, last, s'.padding, 1, n);
    PayloadStep(b, s, b', s');
    CountedSlice(b, n, s'.payloadSize, s.padding);
  }

  lemma CountedSlice(b: seq<Byte>, n: nat, size: nat, padding: Byte)
    requires n + size + padding <= |b| && size + padding > 0
    ensures b[n + size + padding - 1 := padding][n..n + size] == Counted(b, n, size, padding)
  {
  }

  /** An empty, unpadded payload: the octet that `set_payload_size` zeroes belongs to the header. */
  lemma LastHeaderOctet(b: seq<Byte>, s: Shape, b': seq<Byte>, s': Shape)
    requires Layout.Framed(b, s) && s' == s.(payloadSize := 0) && s.padding == 0 && s'.Fits(|b|)
    requires b' == b[s.PayloadOffset() - 1 := 0]
    ensures Layout.Framed(b', s') && Layout.View(b', s') == Layout.View(b, s).(payload := []) <==>
            b[s.PayloadOffset() - 1] == 0
  {
    FramedFits(b, s);
    var n := s.PayloadOffset();
    FlagsOf(b, s);
    if b[n - 1] == 0 {
      assert b' == b;
      PayloadStep(b, s, b', s');
    } else if Layout.Framed(b', s') && Layout.View(b', s') == Layout.View(b, s).(payload := []) {
      SameHeader(b, s, b', s');
      assert false;
    }
  }

  /** Two framed buffers with the same header, CSRC list and extension agree up to the payload. */
  lemma SameHeader(b: seq<Byte>, s: Shape, b': seq<Byte>, s': Shape)
    requires Layout.Framed(b, s) && Layout.Framed(b', s') && |b| == |b'| && s.padding == s'.padding
    requires Layout.View(b', s') == Layout.View(b, s).(payload := Layout.View(b', s').payload)
    ensures s'.PayloadOffset() == s.PayloadOffset()
    ensures b'[s.PayloadOffset() - 1] == b[s.PayloadOffset() - 1]
  {
    FramedFits(b, s);
    FramedFits(b', s');
    assert s'.CsrcEnd() == s.CsrcEnd();
    if s.fields.extended {
      LastOfExtension(b, s, b', s');
    } else if s.fields.csrcCount > 0 {
      LastOfCsrc(b, b', s.CsrcEnd());
    } else {
      HeaderParts(b, s);
      HeaderParts(b', s');
      LastOfBlock(b, 8, 12);
      LastOfBlock(b', 8, 12);
    }
  }

  lemma LastOfExtension(b: seq<Byte>, s: Shape, b': seq<Byte>, s': Shape)
    requires Layout.Framed(b, s) && Layout.Framed(b', s') && s.fields.extended && s'.fields.extended
    requires s'.CsrcEnd() == s.CsrcEnd() && ViewExtension(b, s) == ViewExtension(b', s')
    ensures s'.PayloadOffset() == s.PayloadOffset()
    ensures b'[s.PayloadOffset() - 1] == b[s.PayloadOffset() - 1]
  {
    var at, n := s.CsrcEnd(), s.PayloadOffset();
    AlreadyExtended(b, s);
    AlreadyExtended(b', s');
    if s.extension.length > 0 {
      LastOfBlock(b, at + 4, n);
      LastOfBlock(b', at + 4, n);
    } else {
      LastOfBlock(b, at, at + 4);
      LastOfBlock(b', at, at + 4);
    }
  }

  lemma LastOfCsrc(b: seq<Byte>, b': seq<Byte>, at: nat)
    requires FIXED_SIZE < at <= |b| == |b'| && (at - FIXED_SIZE) % 4 == 0
    requires Words(b[FIXED_SIZE..at]) == Words(b'[FIXED_SIZE..at])
    ensures b'[at - 1] == b[at - 1]
  {
    BytesOfWordsOf(b[FIXED_SIZE..at]);
    BytesOfWordsOf(b'[FIXED_SIZE..at]);
    LastOfBlock(b, FIXED_SIZE, at);
    LastOfBlock(b', FIXED_SIZE, at);
  }

  lemma LastOfBlock<T>(b: seq<T>, i: nat, j: nat)
    requires i < j <= |b|
    ensures b[j - 1] == b[i..j][j - i - 1]
  {
  }

  lemma PayloadWritten(b: seq<Byte>, s: Shape, data: seq<Byte>, b': seq<Byte>)
    requires Layout.Framed(b, s) && |data| == s.payloadSize && b' == Splice(b, s.PayloadOffset(), data)
    ensures Layout.Framed(b', s) && Layout.View(b', s) == Layout.View(b, s).(payload := data)
    ensures b'[s.PayloadEnd()..s.PacketSize()] == b[s.PayloadEnd()..s.PacketSize()]
  {
    hide Layout.View;
    FramedFits(b, s);
    var n, m := s.PayloadOffset(), s.PayloadEnd();
    SpliceSlices(b, n, data);
    FlagsOf(b, s);
    assert b'[0] == b'[..n][0] == b[..n][0] == b[0];
    assert b'[1..n] == b'[..n][1..] == b[..n][1..] == b[1..n];
    TailSlice(b, b', m, m, s.PacketSize());
    if s.padding != 0 {
      LastOfBlock(b, m, s.PacketSize());
      LastOfBlock(b', m, s.PacketSize());
    }
    PayloadStep(b, s, b', s);
  }

  lemma VersionWritten(b: seq<Byte>, s: Shape, b': seq<Byte>)
    requires Layout.Framed(b, s) && b' == b[0 := WithVersion2(b[0])]
    ensures Layout.Framed(b', s) && Layout.View(b', s) == Layout.View(b, s)
    ensures b'[..s.PacketSize()] == Stamped(b[..s.PacketSize()]) == Stamped(b'[..s.PacketSize()])
  {
    hide Layout.View;
    FramedFits(b, s);
    FlagsOf(b, s);
    var n := s.PayloadOffset();
    FlagsFields(2, s.padding != 0, s.fields.extended, s.fields.csrcCount);
    SetVersion(b'[0]);
    UpdatedSlice(b, 0, b'[0], 1, n);
    UpdatedSlice(b, 0, b'[0], n, s.PayloadEnd());
    PayloadStep(b, s, b', s);
  }
}
