/** The relay node: its lifecycle, session keys, message sending, the per-hop forwarding step,
    packet intake and local delivery (src/node.js). Emitted events are appended to `events`,
    transport sends to `outbox` (with the delay the shuffle policy chose), and transport
    start/stop to `transportLog`. The clock, the routing shuffle's random indices, the shuffle
    policy's draws and the encryption IV are arguments. */
module Node {
  import opened Wrappers
  import opened Bytes
  import opened Crypto
  import opened Identity
  import opened Packets
  import opened Dht
  import opened Routing
  import opened Shuffle
  import Base64

  const DefaultMaxTtl: int := 6
  const Cipher: string := "aes-256-gcm"
  const IvBytes: nat := 12

  datatype DropReason = TtlExpired | NoRoute | DecryptFailed

  datatype Event =
    | Drop(packet: Packet, reason: DropReason)
    | Message(packet: Packet, fromAlias: Option<string>, payload: Bytes)

  /** One transport.send, carried out after `delayMs` milliseconds (at once when it is 0). */
  datatype Outbound = Outbound(packet: Packet, hop: string, delayMs: int)

  datatype TransportAction = TransportStarted | TransportStopped

  datatype NodeError = InvalidPacket | MissingSessionKey(dstAlias: string) | KeyNotBuffer | PublishFailed

  /** The options of sendMessage. */
  datatype SendOptions = SendOptions(ttl: Option<int>, metadata: Option<Packets.Metadata>, encrypt: bool)

  /** The constructor options; None marks an absent property. */
  datatype NodeOptions = NodeOptions(
    alias: Option<string>,
    coordinates: Option<Coord>,
    routing: Option<RoutingEngine>,
    shufflePolicy: Option<ShufflePolicy>,
    maxTtl: Option<int>)

  /** The associated data of a packet's encryption: "<src>-><dst>". */
  function Aad(packet: Packet): Bytes {
    Utf8(packet.srcAlias + "->" + packet.dstAlias)
  }

  /** sendMessage's encryption step: the payload replaced by its ciphertext, and the
      descriptor recording the cipher, the IV and the tag as base64. */
  function Encrypt(c: Suite, packet: Packet, key: Bytes, iv: Bytes): (r: Packet)
    ensures r == packet.(payload := r.payload, encryption := r.encryption)
    ensures r.encryption.Some? && r.encryption.value.alg == Cipher
    ensures Base64.Decode(r.encryption.value.iv) == Some(iv)
    ensures Base64.Decode(r.encryption.value.tag) == Some(c.aesGcmSeal(packet.payload, key, iv, Aad(packet)).tag)
    ensures r.payload == c.aesGcmSeal(packet.payload, key, iv, Aad(packet)).ciphertext
  {
    var sealed := c.aesGcmSeal(packet.payload, key, iv, Aad(packet));
    Base64.RoundTrip(iv);
    Base64.RoundTrip(sealed.tag);
    packet.(payload := sealed.ciphertext, encryption := Some(Encryption(Cipher, Base64.Encode(iv), Base64.Encode(sealed.tag))))
  }

  /** The event `_deliver` emits: with a descriptor and a key, the decrypted payload, or a
      decrypt_failed drop when decryption fails; otherwise the payload as it arrived. */
  function DeliveryEvent(c: Suite, packet: Packet, fromAlias: Option<string>, key: Option<Bytes>): (e: Event)
    ensures packet.encryption.None? || key.None? ==> e == Message(packet, fromAlias, packet.payload)
    ensures e.Drop? ==> e == Drop(packet, DecryptFailed) && packet.encryption.Some? && key.Some?
    ensures e.Message? ==> e.packet == packet && e.fromAlias == fromAlias
    ensures packet.encryption.Some? && key.Some? && e.Message? ==>
      exists iv, tag :: Base64.Decode(packet.encryption.value.iv) == Some(iv)
        && Base64.Decode(packet.encryption.value.tag) == Some(tag)
        && c.aesGcmOpen(packet.payload, key.value, iv, tag, Aad(packet)) == Some(e.payload)
  {
    if packet.encryption.Some? && key.Some? then
      match (Base64.Decode(packet.encryption.value.iv), Base64.Decode(packet.encryption.value.tag))
      case (Some(iv), Some(tag)) =>
        (match c.aesGcmOpen(packet.payload, key.value, iv, tag, Aad(packet))
         case Some(plaintext) => Message(packet, fromAlias, plaintext)
         case None => Drop(packet, DecryptFailed))
      case _ => Drop(packet, DecryptFailed)
    else Message(packet, fromAlias, packet.payload)
  }

  /** A packet encrypted by sendMessage is delivered as its plaintext by a node holding the
      same key for the sender, when decryption inverts encryption. */
  lemma EncryptedDeliveryRoundTrip(c: Suite, packet: Packet, key: Bytes, iv: Bytes, fromAlias: Option<string>)
    requires OpenInvertsSeal(c)
    ensures DeliveryEvent(c, Encrypt(c, packet, key, iv), fromAlias, Some(key))
      == Message(Encrypt(c, packet, key, iv), fromAlias, packet.payload)
  {
    var sent := Encrypt(c, packet, key, iv);
    assert Aad(sent) == Aad(packet);
  }

  /** The copy of `packet` sent to one hop: one hop fewer to live, one more hop counted, the
      payload padded by the shuffle policy, and the padding length in the metadata when it
      is not zero. */
  function OutboundFor(policy: ShufflePolicy, packet: Packet, hop: NeighborEntry, d: ShuffleDraw): (o: Outbound)
    ensures o.hop == hop.alias
    ensures o.packet.ttl == packet.ttl - 1 && o.packet.hopCount == packet.hopCount + 1
    ensures (o.packet.version, o.packet.srcAlias, o.packet.dstAlias, o.packet.encryption)
         == (packet.version, packet.srcAlias, packet.dstAlias, packet.encryption)
    ensures |o.packet.payload| == |packet.payload| + policy.Apply(packet.payload, d).paddingBytes
    ensures o.packet.payload[..|packet.payload|] == packet.payload
    ensures o.delayMs == policy.Apply(packet.payload, d).delayMs
    ensures o.packet.metadata.Some?
    ensures policy.Apply(packet.payload, d).paddingBytes == 0 ==> o.packet.metadata == Some(packet.metadata.GetOr(map[]))
    ensures policy.Apply(packet.payload, d).paddingBytes != 0 ==>
      o.packet.metadata == Some(packet.metadata.GetOr(map[])["paddingBytes" := MNum(policy.Apply(packet.payload, d).paddingBytes as real)])
  {
    var shuffle := policy.Apply(packet.payload, d);
    var metadata := if shuffle.paddingBytes != 0
      then packet.metadata.GetOr(map[])["paddingBytes" := MNum(shuffle.paddingBytes as real)]
      else packet.metadata.GetOr(map[]);
    Outbound(packet.(payload := shuffle.payload, metadata := Some(metadata), hopCount := packet.hopCount + 1, ttl := packet.ttl - 1),
             hop.alias, shuffle.delayMs)
  }

  /** One outbound copy per hop, in hop order; hop k uses the k-th shuffle draw. */
  function Fanout(policy: ShufflePolicy, packet: Packet, hops: seq<NeighborEntry>, draws: nat -> ShuffleDraw): (r: seq<Outbound>)
    ensures |r| == |hops|
    decreases |hops|
  {
    if hops == [] then []
    else
      var n := |hops| - 1;
      Fanout(policy, packet, hops[..n], draws) + [OutboundFor(policy, packet, hops[n], draws(n))]
  }

  /** The k-th send is the copy for the k-th hop, shuffled with the k-th draw. */
  lemma {:induction false} FanoutCopies(policy: ShufflePolicy, packet: Packet, hops: seq<NeighborEntry>, draws: nat -> ShuffleDraw)
    ensures forall k :: 0 <= k < |hops| ==> Fanout(policy, packet, hops, draws)[k] == OutboundFor(policy, packet, hops[k], draws(k))
    decreases |hops|
  {
    if hops != [] {
      var init := hops[..|hops| - 1];
      FanoutCopies(policy, packet, init, draws);
      forall k | 0 <= k < |init|
        ensures init[k] == hops[k]
      {
      }
    }
  }

  /** With the pass-through policy the payload crosses every hop unchanged; with any policy,
      padding added at one hop is still there at the next, since delivery never strips it. */
  lemma PaddingAccumulates(policy: ShufflePolicy, packet: Packet, hop1: NeighborEntry, d1: ShuffleDraw,
                           hop2: NeighborEntry, d2: ShuffleDraw)
    ensures var once := OutboundFor(policy, packet, hop1, d1).packet;
      var twice := OutboundFor(policy, once, hop2, d2).packet;
      && twice.payload[..|packet.payload|] == packet.payload
      && |twice.payload| == |packet.payload| + policy.Apply(packet.payload, d1).paddingBytes
                            + policy.Apply(once.payload, d2).paddingBytes
      && (policy.NoShufflePolicy? ==> twice.payload == packet.payload)
  {
    var once := OutboundFor(policy, packet, hop1, d1).packet;
    var twice := OutboundFor(policy, once, hop2, d2).packet;
    assert twice.payload[..|once.payload|] == once.payload;
    assert twice.payload[..|packet.payload|] == twice.payload[..|once.payload|][..|packet.payload|];
  }

  /** Where `_resolveTargetCoordinates` looks: the neighbor entry first, then a live directory
      record that has coordinates, else nothing. */
  function TargetOf(entries: map<string, NeighborEntry>, records: map<string, AliasRecord>, alias: string, now: int): (r: Option<Coord>)
    ensures alias in entries ==> r == Some(entries[alias].coordinates)
    ensures alias !in entries ==>
      (r.Some? <==> alias in records && Live(records[alias], now) && records[alias].coordinates.Some?)
    ensures alias !in entries && r.Some? ==> r == records[alias].coordinates
  {
    if alias in entries then Some(entries[alias].coordinates)
    else if alias in records && Live(records[alias], now) then records[alias].coordinates
    else None
  }

  /** The directory after that lookup: an expired record for the alias is evicted, unless the
      neighbor table answered first. */
  function AfterResolve(entries: map<string, NeighborEntry>, records: map<string, AliasRecord>, alias: string, now: int): (r: map<string, AliasRecord>)
    ensures alias in entries || alias !in records || Live(records[alias], now) ==> r == records
    ensures alias !in entries && alias in records && !Live(records[alias], now) ==> r == records - {alias}
  {
    if alias !in entries && alias in records && !Live(records[alias], now) then records - {alias} else records
  }

  /** What a node is, as far as one forwarding step is concerned. */
  datatype NodeView = NodeView(
    suite: Suite,
    alias: string,
    routing: RoutingEngine,
    shufflePolicy: ShufflePolicy,
    distance: (Coord, Coord) -> real,
    sessionKeys: map<string, Bytes>,
    order: seq<string>,
    entries: map<string, NeighborEntry>,
    records: map<string, AliasRecord>)

  predicate TableShaped(v: NodeView) {
    forall k :: k in v.order ==> k in v.entries
  }

  /** The effect of one forwarding step: its return value, the events it emits, the sends it
      issues, and the directory afterwards. */
  datatype Effect = Effect(result: bool, emitted: seq<Event>, sent: seq<Outbound>, records: map<string, AliasRecord>)

  /** getSessionKey: a registered key (an empty buffer is still a key), else null. */
  function KeyFor(sessionKeys: map<string, Bytes>, alias: string): (r: Option<Bytes>)
    ensures r.Some? <==> alias in sessionKeys
    ensures r.Some? ==> r.value == sessionKeys[alias]
  {
    if alias in sessionKeys then Some(sessionKeys[alias]) else None
  }

  /** forwardPacket: drop when the TTL is spent, deliver when addressed here, otherwise
      resolve the target, select hops, and drop (no route) or send one copy per hop. */
  function Forward(v: NodeView, packet: Packet, fromAlias: Option<string>, now: int,
                   draw: nat -> nat, draws: nat -> ShuffleDraw): (e: Effect)
    requires TableShaped(v)
    ensures packet.ttl <= 0 ==> e == Effect(false, [Drop(packet, TtlExpired)], [], v.records)
    ensures !e.result ==> e.sent == [] && |e.emitted| == 1 && e.emitted[0].Drop? && e.emitted[0].reason != DecryptFailed
    ensures e.sent != [] ==> e.result && e.emitted == [] && packet.ttl > 0 && packet.dstAlias != v.alias
    ensures e.result && e.sent == [] ==> (packet.ttl > 0 && packet.dstAlias == v.alias
      && e.emitted == [DeliveryEvent(v.suite, packet, fromAlias, KeyFor(v.sessionKeys, packet.srcAlias))])
    ensures e.records == AfterResolve(v.entries, v.records, packet.dstAlias, now) || e.records == v.records
    ensures packet.ttl > 0 && packet.dstAlias == v.alias ==>
      e == Effect(true, [DeliveryEvent(v.suite, packet, fromAlias, KeyFor(v.sessionKeys, packet.srcAlias))], [], v.records)
    ensures packet.ttl > 0 && packet.dstAlias != v.alias ==> e == Route(v, packet, now, draw, draws)
  {
    if packet.ttl <= 0 then Effect(false, [Drop(packet, TtlExpired)], [], v.records)
    else if packet.dstAlias == v.alias then
      Effect(true, [DeliveryEvent(v.suite, packet, fromAlias, KeyFor(v.sessionKeys, packet.srcAlias))], [], v.records)
    else Route(v, packet, now, draw, draws)
  }

  /** The routing half of forwardPacket: resolve the target, select hops, and drop (no route)
      or send one copy per hop. */
  function Route(v: NodeView, packet: Packet, now: int, draw: nat -> nat, draws: nat -> ShuffleDraw): (e: Effect)
    requires TableShaped(v)
    ensures e.records == AfterResolve(v.entries, v.records, packet.dstAlias, now)
    ensures e.result <==> e.sent != []
    ensures !e.result ==> e.emitted == [Drop(packet, NoRoute)]
    ensures e.result ==> e.emitted == []
  {
    var target := TargetOf(v.entries, v.records, packet.dstAlias, now);
    var hops := Selection(v.routing, Values(v.order, v.entries), target, v.distance, draw);
    var records := AfterResolve(v.entries, v.records, packet.dstAlias, now);
    if hops == [] then Effect(false, [Drop(packet, NoRoute)], [], records)
    else Effect(true, [], Fanout(v.shufflePolicy, packet, hops, draws), records)
  }

  /** A well-formed table: the invariant of NeighborTable, on the view. */
  ghost predicate TableValid(v: NodeView) {
    && Distinct(v.order)
    && (forall a :: a in v.entries <==> a in v.order)
    && (forall a :: a in v.entries ==> v.entries[a].alias == a)
  }

  /** The sends of a forwarding step go to distinct neighbors of the table, at most maxPaths
      of them (exactly min(maxPaths, n) for a positive maxPaths), each copy one hop further
      on. */
  lemma ForwardSendsToNeighbors(v: NodeView, packet: Packet, fromAlias: Option<string>, now: int,
                                draw: nat -> nat, draws: nat -> ShuffleDraw)
    requires TableValid(v)
    ensures var e := Forward(v, packet, fromAlias, now, draw, draws);
      && (forall i, j :: 0 <= i < j < |e.sent| ==> e.sent[i].hop != e.sent[j].hop)
      && (forall o :: o in e.sent ==> (o.hop in v.entries
            && o.packet.ttl == packet.ttl - 1 && o.packet.hopCount == packet.hopCount + 1))
      && (packet.ttl > 0 && packet.dstAlias != v.alias && v.routing.maxPaths > 0 ==>
            |e.sent| == (if v.routing.maxPaths < |v.entries| then v.routing.maxPaths else |v.entries|))
  {
    if packet.ttl > 0 && packet.dstAlias != v.alias {
      assert Forward(v, packet, fromAlias, now, draw, draws) == Route(v, packet, now, draw, draws);
      RouteSendsToNeighbors(v, packet, now, draw, draws);
    }
  }

  lemma RouteSendsToNeighbors(v: NodeView, packet: Packet, now: int, draw: nat -> nat, draws: nat -> ShuffleDraw)
    requires TableValid(v)
    ensures var e := Route(v, packet, now, draw, draws);
      && (forall i, j :: 0 <= i < j < |e.sent| ==> e.sent[i].hop != e.sent[j].hop)
      && (forall o :: o in e.sent ==> (o.hop in v.entries
            && o.packet.ttl == packet.ttl - 1 && o.packet.hopCount == packet.hopCount + 1))
      && (v.routing.maxPaths > 0 ==>
            |e.sent| == (if v.routing.maxPaths < |v.entries| then v.routing.maxPaths else |v.entries|))
  {
    var neighbors := Values(v.order, v.entries);
    DistinctKeysCount(v.order, v.entries);
    var target := TargetOf(v.entries, v.records, packet.dstAlias, now);
    SelectionOfList(v.routing, neighbors, target, v.distance, draw);
    var hops := Selection(v.routing, neighbors, target, v.distance, draw);
    forall h | h in hops
      ensures h.alias in v.entries
    {
      assert h in neighbors;
    }
    FanoutGoesToHops(v.shufflePolicy, packet, hops, draws);
    assert Route(v, packet, now, draw, draws).sent == if hops == [] then [] else Fanout(v.shufflePolicy, packet, hops, draws);
  }

  lemma FanoutGoesToHops(policy: ShufflePolicy, packet: Packet, hops: seq<NeighborEntry>, draws: nat -> ShuffleDraw)
    requires DistinctAliases(hops)
    ensures var sent := Fanout(policy, packet, hops, draws);
      && (forall i, j :: 0 <= i < j < |sent| ==> sent[i].hop != sent[j].hop)
      && (forall o :: o in sent ==> ((exists h :: h in hops && o.hop == h.alias)
            && o.packet.ttl == packet.ttl - 1 && o.packet.hopCount == packet.hopCount + 1))
  {
    var sent := Fanout(policy, packet, hops, draws);
    FanoutCopies(policy, packet, hops, draws);
    forall o | o in sent
      ensures exists h :: h in hops && o.hop == h.alias
    {
      var k :| 0 <= k < |sent| && sent[k] == o;
      assert hops[k] in hops;
    }
  }

  class PrivacyShieldNode {
    const suite: Suite
    const identity: Keypair
    const alias: string
    const neighbors: NeighborTable
    const routing: RoutingEngine
    const shufflePolicy: ShufflePolicy
    const dht: MemoryDHTStore
    const maxTtl: int
    /** coordinates.js's distance, which the routing engine ranks by */
    const distance: (Coord, Coord) -> real
    var coordinates: Coord
    var sessionKeys: map<string, Bytes>
    var started: bool
    var events: seq<Event>
    var outbox: seq<Outbound>
    var transportLog: seq<TransportAction>

    ghost predicate Valid()
      reads this, neighbors, dht
    {
      neighbors.Valid() && dht.Valid() && dht.suite == suite && alias != ""
    }

    /** The constructor: every absent option takes its default; the identity, the neighbor
        table and the directory are supplied by the caller (fresh ones when the options carry
        none). */
    constructor (suite: Suite, identity: Keypair, opts: NodeOptions, neighbors: NeighborTable, dht: MemoryDHTStore,
                 distance: (Coord, Coord) -> real)
      requires neighbors.Valid() && dht.Valid() && dht.suite == suite
      ensures Valid()
      ensures this.suite == suite && this.identity == identity && this.neighbors == neighbors && this.dht == dht
      ensures alias == if opts.alias.Some? && opts.alias.value != "" then opts.alias.value
                       else DeriveAlias(suite, PublicKeyDer(suite, identity))
      ensures coordinates == opts.coordinates.GetOr(Origin)
      ensures routing == opts.routing.GetOr(NewRoutingEngine(RoutingOptions(None, None)))
      ensures shufflePolicy == opts.shufflePolicy.GetOr(NoShufflePolicy)
      ensures maxTtl == if opts.maxTtl.Some? && opts.maxTtl.value != 0 then opts.maxTtl.value else DefaultMaxTtl
      ensures sessionKeys == map[] && !started && events == [] && outbox == [] && transportLog == []
    {
      this.suite := suite;
      this.identity := identity;
      this.alias := if opts.alias.Some? && opts.alias.value != "" then opts.alias.value
                    else DeriveAlias(suite, PublicKeyDer(suite, identity));
      this.coordinates := opts.coordinates.GetOr(Origin);
      this.neighbors := neighbors;
      this.routing := opts.routing.GetOr(NewRoutingEngine(RoutingOptions(None, None)));
      this.shufflePolicy := opts.shufflePolicy.GetOr(NoShufflePolicy);
      this.dht := dht;
      this.maxTtl := if opts.maxTtl.Some? && opts.maxTtl.value != 0 then opts.maxTtl.value else DefaultMaxTtl;
      this.distance := distance;
      sessionKeys := map[];
      started := false;
      events := [];
      outbox := [];
      transportLog := [];
    }

    function View(): (v: NodeView)
      reads this, neighbors, dht
      requires Valid()
      ensures TableValid(v) && TableShaped(v)
    {
      NodeView(suite, alias, routing, shufflePolicy, distance, sessionKeys, neighbors.order, neighbors.entries, dht.records)
    }

    /** The record publishAliasRecord creates: this node's alias and coordinates. */
    function OwnRecord(now: int): (r: AliasRecord)
      reads this
      requires alias != ""
      ensures r.alias == alias && r.coordinates == Some(coordinates)
      ensures r.expiresAt == now + DefaultAliasTtlMs
    {
      CreateAliasRecord(suite, identity, AliasOptions(Some(alias), None, None, Some(coordinates)), now)
    }

    /** publishAliasRecord: create the record and put it in the directory. */
    method PublishAliasRecord(now: int) returns (r: Result<AliasRecord, NodeError>)
      requires Valid()
      modifies dht
      ensures Valid()
      ensures SignaturesVerify(suite) ==> r == Ok(OwnRecord(now)) && dht.records == old(dht.records)[alias := OwnRecord(now)]
      ensures r.Err? ==> r.error == PublishFailed && dht.records == old(dht.records)
    {
      var record := OwnRecord(now);
      if SignaturesVerify(suite) {
        CreatedRecordVerifies(suite, identity, AliasOptions(Some(alias), None, None, Some(coordinates)), now);
      }
      var put := dht.Put(record, now);
      if put.Err? {
        return Err(PublishFailed);
      }
      r := Ok(record);
    }

    /** start: once only; starts the transport, sets the flag, then publishes the record. */
    method Start(now: int) returns (r: Result<(), NodeError>)
      requires Valid()
      modifies this, dht
      ensures Valid()
      ensures old(started) ==> r == Ok(()) && unchanged(this, dht)
      ensures !old(started) ==> started && transportLog == old(transportLog) + [TransportStarted]
      ensures !old(started) && SignaturesVerify(suite) ==> r == Ok(()) && dht.records == old(dht.records)[alias := OwnRecord(now)]
      ensures (sessionKeys, events, outbox, coordinates) == old((sessionKeys, events, outbox, coordinates))
    {
      if started {
        return Ok(());
      }
      transportLog := transportLog + [TransportStarted];
      started := true;
      var published := PublishAliasRecord(now);
      if published.Err? {
        return Err(published.error);
      }
      r := Ok(());
    }

    /** stop: once only; stops the transport and clears the flag. */
    method Stop()
      requires Valid()
      modifies this
      ensures Valid()
      ensures !old(started) ==> unchanged(this)
      ensures old(started) ==> !started && transportLog == old(transportLog) + [TransportStopped]
      ensures (sessionKeys, events, outbox, coordinates) == old((sessionKeys, events, outbox, coordinates))
    {
      if !started {
        return;
      }
      transportLog := transportLog + [TransportStopped];
      started := false;
    }

    /** updateCoordinates with the estimate coordinates.js computed from the samples. */
    method UpdateCoordinates(estimate: Coord) returns (c: Coord)
      requires Valid()
      modifies this
      ensures Valid()
      ensures c == estimate && coordinates == estimate
      ensures (sessionKeys, started, events, outbox, transportLog) == old((sessionKeys, started, events, outbox, transportLog))
    {
      coordinates := estimate;
      c := estimate;
    }

    /** registerSessionKey: `key` None is a value that is not a buffer, which is refused. */
    method RegisterSessionKey(peer: string, key: Option<Bytes>) returns (r: Result<(), NodeError>)
      requires Valid()
      modifies this
      ensures Valid()
      ensures key.None? ==> r == Err(KeyNotBuffer) && sessionKeys == old(sessionKeys)
      ensures key.Some? ==> r == Ok(()) && sessionKeys == old(sessionKeys)[peer := key.value]
      ensures (coordinates, started, events, outbox, transportLog) == old((coordinates, started, events, outbox, transportLog))
    {
      if key.None? {
        return Err(KeyNotBuffer);
      }
      sessionKeys := sessionKeys[peer := key.value];
      r := Ok(());
    }

    /** getSessionKey */
    function GetSessionKey(peer: string): (r: Option<Bytes>)
      reads this
      ensures r == KeyFor(sessionKeys, peer)
    {
      if peer in sessionKeys then Some(sessionKeys[peer]) else None
    }

    /** _resolveTargetCoordinates: a read, except that the directory lookup evicts an expired
        record. */
    method ResolveTargetCoordinates(target: string, now: int) returns (r: Option<Coord>)
      requires Valid()
      modifies dht
      ensures Valid()
      ensures r == TargetOf(neighbors.entries, old(dht.records), target, now)
      ensures dht.records == AfterResolve(neighbors.entries, old(dht.records), target, now)
    {
      var neighbor := neighbors.Get(target);
      if neighbor.Some? {
        return Some(neighbor.value.coordinates);
      }
      var record := dht.Get(target, now);
      if record.Some? && record.value.coordinates.Some? {
        return record.value.coordinates;
      }
      r := None;
    }

    /** _deliver: emits the message, or the decrypt_failed drop. */
    method Deliver(packet: Packet, fromAlias: Option<string>)
      requires Valid()
      modifies this
      ensures Valid()
      ensures events == old(events) + [DeliveryEvent(suite, packet, fromAlias, KeyFor(sessionKeys, packet.srcAlias))]
      ensures (coordinates, sessionKeys, started, outbox, transportLog) == old((coordinates, sessionKeys, started, outbox, transportLog))
    {
      var key := GetSessionKey(packet.srcAlias);
      events := events + [DeliveryEvent(suite, packet, fromAlias, key)];
    }

    /** forwardPacket, with the oracles of the routing shuffle and of the shuffle policy. */
    method ForwardPacket(packet: Packet, fromAlias: Option<string>, now: int, draw: nat -> nat, draws: nat -> ShuffleDraw)
      returns (r: bool)
      requires Valid()
      modifies this, dht
      ensures Valid()
      ensures var e := Forward(old(View()), packet, fromAlias, now, draw, draws);
        && r == e.result
        && events == old(events) + e.emitted
        && outbox == old(outbox) + e.sent
        && dht.records == e.records
      ensures (coordinates, sessionKeys, started, transportLog) == old((coordinates, sessionKeys, started, transportLog))
    {
      if packet.ttl <= 0 {
        events := events + [Drop(packet, TtlExpired)];
        return false;
      }
      if packet.dstAlias == alias {
        Deliver(packet, fromAlias);
        return true;
      }
      r := RoutePacket(packet, now, draw, draws);
    }

    /** The routing half of forwardPacket. */
    method RoutePacket(packet: Packet, now: int, draw: nat -> nat, draws: nat -> ShuffleDraw) returns (r: bool)
      requires Valid()
      modifies this, dht
      ensures Valid()
      ensures var e := Route(old(View()), packet, now, draw, draws);
        && r == e.result
        && events == old(events) + e.emitted
        && outbox == old(outbox) + e.sent
        && dht.records == e.records
      ensures (coordinates, sessionKeys, started, transportLog) == old((coordinates, sessionKeys, started, transportLog))
    {
      ghost var v := View();
      var hops := NextHops(packet.dstAlias, now, draw);
      ghost var e := Route(v, packet, now, draw, draws);
      assert e.records == dht.records;
      if |hops| == 0 {
        assert e.emitted == [Drop(packet, NoRoute)] && e.sent == [] && !e.result;
        events := events + [Drop(packet, NoRoute)];
        return false;
      }
      assert e.emitted == [] && e.sent == Fanout(shufflePolicy, packet, hops, draws) && e.result;
      SendCopies(packet, hops, draws);
      r := true;
    }

    /** The next hops towards a destination, resolving its coordinates first. */
    method NextHops(dstAlias: string, now: int, draw: nat -> nat) returns (hops: seq<NeighborEntry>)
      requires Valid()
      modifies dht
      ensures Valid()
      ensures var v := old(View());
        hops == Selection(v.routing, Values(v.order, v.entries), TargetOf(v.entries, v.records, dstAlias, now), v.distance, draw)
      ensures dht.records == AfterResolve(neighbors.entries, old(dht.records), dstAlias, now)
    {
      var target := ResolveTargetCoordinates(dstAlias, now);
      hops := SelectNextHops(routing, neighbors, target, distance, draw);
    }

    /** The loop of forwardPacket: one send per hop, each with its own shuffle. */
    method SendCopies(packet: Packet, hops: seq<NeighborEntry>, draws: nat -> ShuffleDraw)
      requires Valid()
      modifies this
      ensures Valid()
      ensures outbox == old(outbox) + Fanout(shufflePolicy, packet, hops, draws)
      ensures (coordinates, sessionKeys, started, transportLog, events)
           == old((coordinates, sessionKeys, started, transportLog, events))
    {
      var i := 0;
      while i < |hops|
        invariant 0 <= i <= |hops|
        invariant outbox == old(outbox) + Fanout(shufflePolicy, packet, hops[..i], draws)
        invariant (coordinates, sessionKeys, started, transportLog, events)
               == old((coordinates, sessionKeys, started, transportLog, events))
      {
        var shuffle := shufflePolicy.Apply(packet.payload, draws(i));
        var metadata := packet.metadata.GetOr(map[]);
        if shuffle.paddingBytes != 0 {
          metadata := metadata["paddingBytes" := MNum(shuffle.paddingBytes as real)];
        }
        var outbound := packet.(payload := shuffle.payload, metadata := Some(metadata),
                                hopCount := packet.hopCount + 1, ttl := packet.ttl - 1);
        assert Outbound(outbound, hops[i].alias, shuffle.delayMs) == OutboundFor(shufflePolicy, packet, hops[i], draws(i));
        assert hops[..i + 1][..i] == hops[..i];
        outbox := outbox + [Outbound(outbound, hops[i].alias, shuffle.delayMs)];
        i := i + 1;
      }
      assert hops[..i] == hops;
    }

    /** The metadata latency _onPacket reads: a number under "latencyMs", else nothing. */
    static function LatencyOf(packet: Packet): (r: Option<real>)
      ensures r.Some? <==> packet.metadata.Some? && "latencyMs" in packet.metadata.value
                           && packet.metadata.value["latencyMs"].MNum?
      ensures r.Some? ==> packet.metadata.value["latencyMs"] == MNum(r.value)
    {
      if packet.metadata.Some? && "latencyMs" in packet.metadata.value && packet.metadata.value["latencyMs"].MNum?
      then Some(packet.metadata.value["latencyMs"].n) else None
    }

    /** _onPacket: ignores a missing packet or an empty destination; records the latency a
        sender reports; delivers a packet addressed here without looking at its TTL; forwards
        anything else. */
    method OnPacket(packet: Option<Packet>, fromAlias: Option<string>, now: int, draw: nat -> nat, draws: nat -> ShuffleDraw)
      requires Valid()
      modifies this, dht, neighbors
      ensures Valid()
      ensures packet.None? || packet.value.dstAlias == "" ==> unchanged(this, dht, neighbors)
      ensures packet.Some? && packet.value.dstAlias != "" ==>
        var latency := LatencyOf(packet.value);
        && neighbors.order == old(neighbors.order)
        && (if fromAlias.Some? && fromAlias.value != "" && latency.Some? && fromAlias.value in old(neighbors.entries)
            then neighbors.entries == old(neighbors.entries)[fromAlias.value :=
                   old(neighbors.entries)[fromAlias.value].(latencyMs := latency, lastSeen := now)]
            else neighbors.entries == old(neighbors.entries))
      ensures packet.Some? && packet.value.dstAlias == alias && alias != "" ==>
        events == old(events) + [DeliveryEvent(suite, packet.value, fromAlias, KeyFor(sessionKeys, packet.value.srcAlias))]
        && outbox == old(outbox) && dht.records == old(dht.records)
      ensures packet.Some? && packet.value.dstAlias != "" && packet.value.dstAlias != alias ==>
        var e := Forward(old(View()).(entries := neighbors.entries), packet.value, fromAlias, now, draw, draws);
        && events == old(events) + e.emitted
        && outbox == old(outbox) + e.sent
        && dht.records == e.records
      ensures (coordinates, sessionKeys, started, transportLog) == old((coordinates, sessionKeys, started, transportLog))
    {
      if packet.None? || packet.value.dstAlias == "" {
        return;
      }
      if fromAlias.Some? && fromAlias.value != "" {
        var latency := LatencyOf(packet.value);
        if latency.Some? {
          var _ := neighbors.UpdateLatency(fromAlias.value, latency.value, now);
        }
      }
      if packet.value.dstAlias == alias {
        Deliver(packet.value, fromAlias);
        return;
      }
      assert View() == old(View()).(entries := neighbors.entries);
      var _ := ForwardPacket(packet.value, fromAlias, now, draw, draws);
    }

    /** The packet sendMessage builds and, when asked, encrypts; errors stop it before
        anything is sent. */
    function Outgoing(dstAlias: Option<string>, payload: PayloadArg, opts: SendOptions, iv: Bytes): (r: Result<Packet, NodeError>)
      reads this
      requires alias != ""
      ensures r.Err? <==> !Truthy(dstAlias) || (opts.encrypt && dstAlias.value !in sessionKeys)
      ensures r.Err? && !Truthy(dstAlias) ==> r.error == InvalidPacket
      ensures r.Ok? ==> (r.value.srcAlias == alias && r.value.dstAlias == dstAlias.value && r.value.hopCount == 0
        && r.value.ttl == (if opts.ttl.Some? && opts.ttl.value != 0 then opts.ttl.value else maxTtl)
        && r.value.metadata == Some(opts.metadata.GetOr(map[])))
      ensures r.Ok? && !opts.encrypt ==> r.value.payload == NormalizePayload(payload) && r.value.encryption.None?
      ensures r.Ok? && opts.encrypt ==>
        r.value == Encrypt(suite, r.value.(payload := NormalizePayload(payload), encryption := None), sessionKeys[dstAlias.value], iv)
    {
      var ttl := if opts.ttl.Some? && opts.ttl.value != 0 then opts.ttl.value else maxTtl;
      match CreatePacket(PacketArgs(Some(alias), dstAlias, payload, Some(ttl), None, Some(opts.metadata.GetOr(map[])), None))
      case Err(_) => Err(InvalidPacket)
      case Ok(packet) =>
        if !opts.encrypt then Ok(packet)
        else
          match KeyFor(sessionKeys, dstAlias.value)
          case None => Err(MissingSessionKey(dstAlias.value))
          case Some(key) => Ok(Encrypt(suite, packet, key, iv))
    }

    /** sendMessage: build the packet (encrypting it under the destination's session key when
        asked) and forward it; `iv` is the random AES-GCM IV. */
    method SendMessage(dstAlias: Option<string>, payload: PayloadArg, opts: SendOptions, iv: Bytes,
                       now: int, draw: nat -> nat, draws: nat -> ShuffleDraw)
      returns (r: Result<bool, NodeError>)
      requires Valid() && |iv| == IvBytes
      modifies this, dht
      ensures Valid()
      ensures old(Outgoing(dstAlias, payload, opts, iv)).Err? ==>
        r == Err(old(Outgoing(dstAlias, payload, opts, iv)).error) && unchanged(this, dht)
      ensures old(Outgoing(dstAlias, payload, opts, iv)).Ok? ==>
        var e := Forward(old(View()), old(Outgoing(dstAlias, payload, opts, iv)).value, None, now, draw, draws);
        && r == Ok(e.result)
        && events == old(events) + e.emitted
        && outbox == old(outbox) + e.sent
        && dht.records == e.records
      ensures (coordinates, sessionKeys, started, transportLog) == old((coordinates, sessionKeys, started, transportLog))
    {
      var packet := Outgoing(dstAlias, payload, opts, iv);
      if packet.Err? {
        return Err(packet.error);
      }
      var forwarded := ForwardPacket(packet.value, None, now, draw, draws);
      r := Ok(forwarded);
    }
  }

  /** End to end: an encrypted message sent through the pass-through policy to the
      destination's node is delivered there as its plaintext, when the receiver holds the
      sender's key under the sender's alias and decryption inverts encryption. */
  lemma EncryptedMessageReachesPeer(packet: Packet, key: Bytes, iv: Bytes, hop: NeighborEntry, d: ShuffleDraw,
                                    receiver: NodeView, now: int, draw: nat -> nat, draws: nat -> ShuffleDraw)
    requires OpenInvertsSeal(receiver.suite) && TableShaped(receiver)
    requires packet.dstAlias == receiver.alias && packet.ttl > 1
    requires KeyFor(receiver.sessionKeys, packet.srcAlias) == Some(key)
    ensures var sent := OutboundFor(NoShufflePolicy, Encrypt(receiver.suite, packet, key, iv), hop, d).packet;
      Forward(receiver, sent, Some(hop.alias), now, draw, draws)
        == Effect(true, [Message(sent, Some(hop.alias), packet.payload)], [], receiver.records)
  {
    var c := receiver.suite;
    var encrypted := Encrypt(c, packet, key, iv);
    var sent := OutboundFor(NoShufflePolicy, encrypted, hop, d).packet;
    assert sent.payload == encrypted.payload;
    assert Aad(sent) == Aad(packet);
  }
}
