/** The in-flight packet envelope: construction with defaults, and its wire form, the JSON
    object that is stringified onto the transport (src/packet.js). */
module Packets {
  import opened Wrappers
  import opened Bytes
  import Base64

  const DefaultTtl: int := 6
  const ProtocolVersion: int := 1

  /** A metadata value that survives a JSON round trip unchanged. */
  datatype MetaValue = MNull | MBool(b: bool) | MNum(n: real) | MStr(s: string)

  type Metadata = map<string, MetaValue>

  /** The encryption descriptor; `iv` and `tag` are base64 text. */
  datatype Encryption = Encryption(alg: string, iv: string, tag: string)

  /** `metadata` is None when the packet object carries null or undefined there. */
  datatype Packet = Packet(
    version: int,
    srcAlias: string,
    dstAlias: string,
    ttl: int,
    hopCount: int,
    payload: Bytes,
    metadata: Option<Metadata>,
    encryption: Option<Encryption>)

  /** The payload argument of createPacket: absent, a byte buffer, or a string. */
  datatype PayloadArg = NoPayload | BytesPayload(bytes: Bytes) | TextPayload(text: string)

  /** The options object of createPacket; None marks an absent property. An empty alias
      string is falsy, exactly like an absent one. */
  datatype PacketArgs = PacketArgs(
    srcAlias: Option<string>,
    dstAlias: Option<string>,
    payload: PayloadArg,
    ttl: Option<int>,
    hopCount: Option<int>,
    metadata: Option<Metadata>,
    encryption: Option<Encryption>)

  datatype PacketError = MissingAlias | MalformedBase64

  predicate Truthy(s: Option<string>) {
    s.Some? && s.value != ""
  }

  /** Normalisation of the payload to bytes: a buffer is kept, a string becomes its UTF-8
      bytes, and a missing payload (or the empty string) becomes the empty buffer. */
  function NormalizePayload(p: PayloadArg): (r: Bytes)
    ensures p.BytesPayload? ==> r == p.bytes
    ensures p.TextPayload? ==> r == Utf8(p.text)
    ensures p.TextPayload? && IsAscii(p.text) ==> |r| == |p.text|
    ensures r == [] <==> p.NoPayload? || (p.BytesPayload? && p.bytes == []) || (p.TextPayload? && p.text == "")
  {
    match p
    case NoPayload => []
    case BytesPayload(b) => b
    case TextPayload(t) =>
      if IsAscii(t) then Utf8OfAscii(t); Utf8(t) else Utf8(t)
  }

  /** createPacket: throws unless both aliases are non-empty; fills in the defaults. */
  function CreatePacket(args: PacketArgs): (r: Result<Packet, PacketError>)
    ensures r.Err? <==> !Truthy(args.srcAlias) || !Truthy(args.dstAlias)
    ensures r.Err? ==> r.error == MissingAlias
    ensures r.Ok? ==> r.value.version == ProtocolVersion
    ensures r.Ok? ==> r.value.srcAlias == args.srcAlias.value && r.value.dstAlias == args.dstAlias.value
    ensures r.Ok? ==> r.value.payload == NormalizePayload(args.payload)
    ensures r.Ok? ==> r.value.ttl == (if args.ttl.Some? then args.ttl.value else DefaultTtl)
    ensures r.Ok? ==> r.value.hopCount == (if args.hopCount.Some? then args.hopCount.value else 0)
    ensures r.Ok? ==> r.value.metadata == Some(if args.metadata.Some? then args.metadata.value else map[])
    ensures r.Ok? ==> r.value.encryption == args.encryption
  {
    if !Truthy(args.srcAlias) || !Truthy(args.dstAlias) then Err(MissingAlias)
    else
      Ok(Packet(
        ProtocolVersion,
        args.srcAlias.value,
        args.dstAlias.value,
        args.ttl.GetOr(DefaultTtl),
        args.hopCount.GetOr(0),
        NormalizePayload(args.payload),
        Some(args.metadata.GetOr(map[])),
        args.encryption))
  }

  /** With every optional argument absent, a packet starts with TTL 6, hop count 0, empty
      metadata, no encryption and an empty payload. */
  lemma CreatePacketDefaults(src: string, dst: string)
    requires src != "" && dst != ""
    ensures CreatePacket(PacketArgs(Some(src), Some(dst), NoPayload, None, None, None, None))
      == Ok(Packet(1, src, dst, 6, 0, [], Some(map[]), None))
  {
  }

  /** The parsed JSON object of the wire form; None marks a property that is absent or null. */
  datatype Wire = Wire(
    version: int,
    srcAlias: string,
    dstAlias: string,
    ttl: int,
    hopCount: int,
    payload: Option<string>,
    metadata: Option<Metadata>,
    encryption: Option<Encryption>)

  /** encodePacket: the payload as base64 text, a missing metadata written as {} and a
      missing encryption written as null. */
  function EncodePacket(p: Packet): (w: Wire)
    ensures w.payload == Some(Base64.Encode(p.payload))
    ensures w.metadata == Some(if p.metadata.Some? then p.metadata.value else map[])
    ensures w.encryption == p.encryption
    ensures (w.version, w.srcAlias, w.dstAlias, w.ttl, w.hopCount) == (p.version, p.srcAlias, p.dstAlias, p.ttl, p.hopCount)
  {
    Wire(p.version, p.srcAlias, p.dstAlias, p.ttl, p.hopCount,
         Some(Base64.Encode(p.payload)), Some(p.metadata.GetOr(map[])), p.encryption)
  }

  /** decodePacket: a missing payload decodes as the empty buffer, a missing metadata as {}
      and a missing encryption as null; base64 text that is not canonical is rejected. */
  function DecodePacket(w: Wire): (r: Result<Packet, PacketError>)
    ensures w.payload.None? || w.payload == Some("") ==> r.Ok? && r.value.payload == []
    ensures r.Err? ==> r.error == MalformedBase64 && w.payload.Some?
    ensures r.Ok? ==> r.value.metadata == Some(if w.metadata.Some? then w.metadata.value else map[])
    ensures r.Ok? ==> r.value.encryption == w.encryption
  {
    var text := w.payload.GetOr("");
    match Base64.Decode(text)
    case None => Err(MalformedBase64)
    case Some(bytes) =>
      Ok(Packet(w.version, w.srcAlias, w.dstAlias, w.ttl, w.hopCount, bytes,
                Some(w.metadata.GetOr(map[])), w.encryption))
  }

  /** The wire round trip: decoding an encoded packet reproduces every field, the payload
      byte for byte (whatever the bytes, the empty payload included); only a missing
      metadata comes back as {}. */
  lemma WireRoundTrip(p: Packet)
    ensures DecodePacket(EncodePacket(p)) == Ok(p.(metadata := Some(p.metadata.GetOr(map[]))))
  {
    Base64.RoundTrip(p.payload);
  }
}
