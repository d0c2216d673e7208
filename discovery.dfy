/** packages/artnet-lib/core/discovery: the ArtPoll loop that finds nodes, and the handlers
    for the datagrams nodes answer with. The poll timer becomes a flag saying whether the
    next poll is scheduled and a method called when it fires; the communicator's listeners
    become the two handler methods, given the datagram, its sender's address and the time it
    arrived. */
module Discoveries {
  import opened Wrappers
  import opened ByteOrder
  import opened Schemas
  import opened Encoder
  import opened ArtNetPackets
  import PollPacket
  import PollReplyPacket
  import opened JsStrings
  import opened Communicators
  import opened Nodes
  import opened NodeManagers

  const DEFAULT_POLL_INTERVAL: int := 3000

  /** `DiscoveryStatus`. */
  datatype DiscoveryStatus = Running | Suspended

  // ---------------------------------------------------------------- the reply this host sends

  /** A number parsed from text, NaN held as 0: writing a NaN into the packet's bytes
      makes it 0. */
  function OrZero(x: Option<int>): int {
    if x.Some? then x.value else 0
  }

  /** `selfMacAddress.split(':').map((v) => parseInt(v, 16))`. */
  function MacNumbers(mac: string): (r: seq<int>)
    ensures |r| == |Split(mac, ':')|
  {
    var parts := Split(mac, ':');
    seq(|parts|, i requires 0 <= i < |parts| => OrZero(ParseInt(parts[i], 16)))
  }

  /** `networkIp.split('.').map((n) => parseInt(n))`. */
  function IpNumbers(ip: string): (r: seq<int>)
    ensures |r| == |Split(ip, '.')|
  {
    var parts := Split(ip, '.');
    seq(|parts|, i requires 0 <= i < |parts| => OrZero(ParseInt(parts[i], 0)))
  }

  /** A MAC address written as colon-separated hex octets is read back as its octets. */
  lemma MacNumbersOfHex(bytes: seq<nat>)
    requires |bytes| >= 1 && forall i :: 0 <= i < |bytes| ==> bytes[i] < 256
    ensures MacNumbers(HexJoin(bytes, ':')) == bytes
  {
    ParseMac(bytes);
  }

  /** An address written as dotted decimal numbers is read back as its numbers. */
  lemma IpNumbersOfDotted(octets: seq<int>)
    requires |octets| >= 1
    ensures IpNumbers(Dotted(octets)) == octets
  {
    SplitJoinNumbers(octets, '.');
    var r := IpNumbers(Dotted(octets));
    forall i | 0 <= i < |octets| ensures r[i] == octets[i] {
      ParseIntOfString(octets[i]);
    }
  }

  /** `payload?.key ?? fallback`: a field that is missing or `undefined` takes the fallback. */
  function Given(payload: Payload<Key>, k: Key, fallback: Value): (r: Value)
    ensures k in payload && !payload[k].Undefined? ==> r == payload[k]
    ensures (k !in payload || payload[k].Undefined?) ==> r == fallback
  {
    if k in payload && !payload[k].Undefined? then payload[k] else fallback
  }

  /** The overrides `setReplyInfo(payload)` gives `new PollReplyPacket(...)`: the payload,
      then the host's MAC address, and the port and address unless the payload names them. */
  function ReplyOverrides(payload: Payload<Key>, config: NetworkConfig, selfMac: string): Payload<Key> {
    payload[MacAddress := Arr(MacNumbers(selfMac))]
      [Port := Given(payload, Port, Num(config.port))]
      [IpAddress := Given(payload, IpAddress, Arr(IpNumbers(config.networkIp)))]
  }

  /** A packet's own fields win over its defaults and the header. */
  lemma OverridesWin(op: int, defaults: Payload<Key>, o: Payload<Key>)
    ensures forall k :: k in o ==> k in WithHeader(op, defaults + o) && WithHeader(op, defaults + o)[k] == o[k]
  {
  }

  /** The reply's fields: the MAC address always from the communicator, the port and
      address from the payload when it names them, else from the communicator's bound
      network, and every other field the payload names as given. */
  lemma ReplyInfoFields(payload: Payload<Key>, config: NetworkConfig, selfMac: string)
    ensures var r := PollReplyPacket.PollReply(ReplyOverrides(payload, config, selfMac));
      MacAddress in r && r[MacAddress] == Arr(MacNumbers(selfMac)) &&
      Port in r && r[Port] == Given(payload, Port, Num(config.port)) &&
      IpAddress in r && r[IpAddress] == Given(payload, IpAddress, Arr(IpNumbers(config.networkIp))) &&
      forall k :: k in payload && k != MacAddress && k != Port && k != IpAddress ==> k in r && r[k] == payload[k]
  {
    OverridesWin(OP_POLL_REPLY, PollReplyPacket.PollReplyDefaults(), ReplyOverrides(payload, config, selfMac));
  }

  // ---------------------------------------------------------------- decoded replies

  /** Positions of the reply's records in the layout with the header. */
  lemma ReplyLayoutAt(i: nat)
    requires i < |PollReplyPacket.PollReplySchema()|
    ensures Layout(PollReplyPacket.PollReplySchema())[2 + i] == PollReplyPacket.PollReplySchema()[i]
  {
  }

  lemma AddressingAt()
    ensures PollReplyPacket.PollReplySchema()[0] == (IpAddress, ArrayField(4, 1, LE))
    ensures PollReplyPacket.PollReplySchema()[3] == (NetSwitch, NumberField(1, BE))
    ensures PollReplyPacket.PollReplySchema()[4] == (NetSubSwitch, NumberField(1, BE))
  {
    var s := PollReplyPacket.PollReplySchema();
    var a := PollReplyPacket.Addressing();
    assert s[0] == a[0] && s[3] == a[3] && s[4] == a[4];
  }

  lemma NamesAt()
    ensures PollReplyPacket.PollReplySchema()[9] == (ShortName, StringField(18))
    ensures PollReplyPacket.PollReplySchema()[10] == (LongName, StringField(64))
    ensures PollReplyPacket.PollReplySchema()[12] == (NumPorts, NumberField(2, BE))
  {
    var a := PollReplyPacket.Addressing();
    var b := PollReplyPacket.Names();
    var s := PollReplyPacket.PollReplySchema();
    assert s == (a + b) + PollReplyPacket.Ports() + PollReplyPacket.Identity();
    assert |a| == 9;
    assert (a + b)[9] == b[0] && (a + b)[10] == b[1] && (a + b)[12] == b[3];
  }

  lemma PortsAt()
    ensures PollReplyPacket.PollReplySchema()[17] == (SwOut, ArrayField(4, 1, LE))
  {
    var ab := PollReplyPacket.Addressing() + PollReplyPacket.Names();
    var c := PollReplyPacket.Ports();
    var s := PollReplyPacket.PollReplySchema();
    assert s == (ab + c) + PollReplyPacket.Identity();
    assert |ab| == 13;
    assert (ab + c)[17] == c[4];
  }

  lemma IdentityAt()
    ensures PollReplyPacket.PollReplySchema()[23] == (MacAddress, ArrayField(6, 1, LE))
    ensures PollReplyPacket.PollReplySchema()[25] == (BindIndex, NumberField(1, BE))
  {
    var abc := PollReplyPacket.Addressing() + PollReplyPacket.Names() + PollReplyPacket.Ports();
    var d := PollReplyPacket.Identity();
    var s := PollReplyPacket.PollReplySchema();
    assert s == abc + d;
    assert |abc| == 22;
    assert s[23] == d[1] && s[25] == d[3];
  }

  /** Every payload `decode` returns for the reply's layout has the fields a node reads, of
      the kinds its type gives them. */
  lemma DecodedReplyTyped(data: seq<byte>)
    requires Decoded(data, Layout(PollReplyPacket.PollReplySchema())).0.Ok?
    ensures ReplyTyped(Decoded(data, Layout(PollReplyPacket.PollReplySchema())).0.value)
  {
    var s := PollReplyPacket.PollReplySchema();
    var l := Layout(s);
    PollReplyPacket.Records();
    LayoutUnique(s);
    DecodeFromKinds(data, 0, l, map[]);
    var d := Decoded(data, l).0.value;
    AddressingAt(); NamesAt(); PortsAt(); IdentityAt();
    ReplyLayoutAt(0); ReplyLayoutAt(3); ReplyLayoutAt(4); ReplyLayoutAt(9); ReplyLayoutAt(10);
    ReplyLayoutAt(12); ReplyLayoutAt(17); ReplyLayoutAt(23); ReplyLayoutAt(25);
    assert ReadKind(d[l[2].0], l[2].1) && ReadKind(d[l[5].0], l[5].1) && ReadKind(d[l[6].0], l[6].1);
    assert ReadKind(d[l[11].0], l[11].1) && ReadKind(d[l[12].0], l[12].1) && ReadKind(d[l[14].0], l[14].1);
    assert ReadKind(d[l[19].0], l[19].1) && ReadKind(d[l[25].0], l[25].1) && ReadKind(d[l[27].0], l[27].1);
  }

  // ---------------------------------------------------------------- discovery

  /** The datagram of `new PollPacket().encode()`: an ArtPoll with the default payload,
      which always encodes. */
  function PollBytes(): (r: seq<byte>)
    ensures Encoded(PollPacket.PollPayload(map[]), Layout(PollPacket.PollSchema())) == Ok(r)
    ensures Decoded(r, Layout(PollPacket.PollSchema())).0 == Ok(PollPacket.PollPayload(map[]))
  {
    PollPacket.RoundTrip(map[]);
    Encoded(PollPacket.PollPayload(map[]), Layout(PollPacket.PollSchema())).value
  }

  class Discovery {
    var sendArtPollReply: bool
    var isActive: bool
    /** Whether the next poll is scheduled (`pollTimer`). */
    var pollScheduled: bool
    var pollingInterval: int
    /** The payload of `pollReplyPacket`. */
    var reply: Payload<Key>
    const communicator: Communicator
    const nodeManager: NodeManager

    ghost predicate Valid()
      reads this, nodeManager, nodeManager.Repr()
    {
      nodeManager.Valid()
    }

    /** `new Discovery(nodeManager, communicator, sendArtPollReply = false)`: inactive, with
        the default polling interval and the reply built from the communicator. */
    constructor (nodeManager: NodeManager, communicator: Communicator, sendArtPollReply: bool)
      ensures this.nodeManager == nodeManager && this.communicator == communicator
      ensures this.sendArtPollReply == sendArtPollReply && !isActive && !pollScheduled
      ensures pollingInterval == DEFAULT_POLL_INTERVAL
      ensures reply == PollReplyPacket.PollReply(ReplyOverrides(map[], communicator.config, communicator.selfMacAddress))
    {
      this.communicator := communicator;
      this.nodeManager := nodeManager;
      this.sendArtPollReply := sendArtPollReply;
      isActive := false;
      pollScheduled := false;
      pollingInterval := DEFAULT_POLL_INTERVAL;
      reply := PollReplyPacket.PollReply(ReplyOverrides(map[], communicator.config, communicator.selfMacAddress));
    }

    /** `setReplyInfo(payload?)`, an absent payload being the empty one. */
    method SetReplyInfo(payload: Payload<Key>)
      modifies this`reply
      ensures reply == PollReplyPacket.PollReply(ReplyOverrides(payload, communicator.config, communicator.selfMacAddress))
    {
      reply := PollReplyPacket.PollReply(ReplyOverrides(payload, communicator.config, communicator.selfMacAddress));
    }

    /** `updateReplyInfo`: the reply rebuilt from the communicator alone. */
    method UpdateReplyInfo()
      modifies this`reply
      ensures reply == PollReplyPacket.PollReply(ReplyOverrides(map[], communicator.config, communicator.selfMacAddress))
    {
      SetReplyInfo(map[]);
    }

    /** `discoveryLoop`: while active, an ArtPoll with the default payload is broadcast and
        the next poll scheduled; inactive, nothing happens. */
    method DiscoveryLoop() returns (r: Outcome)
      modifies this`pollScheduled, communicator`outbox
      ensures !old(isActive) ==> r == Pass && communicator.outbox == old(communicator.outbox) && pollScheduled == old(pollScheduled)
      ensures old(isActive) ==> (
        r == Pass && pollScheduled &&
        communicator.outbox == old(communicator.outbox) +
          [Datagram(PollBytes(), communicator.broadcastIpAddress)])
    {
      if !isActive {
        return Pass;
      }
      var packet := new PollPacket.Poll(map[]);
      var bytes := packet.Encode();
      assert bytes == Ok(PollBytes());
      communicator.SendBroadcast(bytes.value);
      pollScheduled := true;
      return Pass;
    }

    /** `run`: stop, then become active, restart the node watcher with its defaults and
        poll at once. */
    method Run() returns (r: Outcome)
      requires Valid()
      modifies this`isActive, this`pollScheduled, nodeManager, communicator`outbox
      ensures Valid() && isActive && pollScheduled && r == Pass
      ensures nodeManager.nodes == old(nodeManager.nodes) && nodeManager.events == old(nodeManager.events)
      ensures nodeManager.watching && nodeManager.watchInterval == DEFAULT_NODE_WATCHER_INTERVAL_MS
      ensures nodeManager.nodeDeathTimeout == NODE_DEATH_TIMEOUT_MS
      ensures communicator.outbox == old(communicator.outbox) +
        [Datagram(PollBytes(), communicator.broadcastIpAddress)]
    {
      Stop();
      isActive := true;
      nodeManager.Watch(None, None);
      assert Valid();
      r := DiscoveryLoop();
      assert unchanged(nodeManager.Repr());
    }

    /** `stop`: inactive, the node registry's `dispose` run and the pending poll cancelled.
        As written `dispose` only stops the watcher, so the registered nodes stay. */
    method Stop()
      requires Valid()
      modifies this`isActive, this`pollScheduled, nodeManager
      ensures Valid() && !isActive && !pollScheduled
      ensures nodeManager.nodes == old(nodeManager.nodes) && !nodeManager.watching
      ensures nodeManager.events == old(nodeManager.events)
      ensures nodeManager.watchInterval == old(nodeManager.watchInterval)
      ensures nodeManager.nodeDeathTimeout == old(nodeManager.nodeDeathTimeout)
    {
      isActive := false;
      nodeManager.Dispose();
      pollScheduled := false;
    }

    /** `updatePollingInterval(pollingInterval = DEFAULT_POLL_INTERVAL)`. */
    method UpdatePollingInterval(interval: Option<int>) returns (r: int)
      modifies this`pollingInterval
      ensures r == pollingInterval == (if interval.Some? then interval.value else DEFAULT_POLL_INTERVAL)
    {
      pollingInterval := if interval.Some? then interval.value else DEFAULT_POLL_INTERVAL;
      r := pollingInterval;
    }

    /** `getStatus`. */
    function GetStatus(): (r: DiscoveryStatus)
      reads this`isActive
      ensures r == Running <==> isActive
    {
      if isActive then Running else Suspended
    }

    /** `handleArtPoll`: an ArtPoll, when replying is enabled, is answered with this host's
        ArtPollReply; anything else is ignored. The test of the datagram throws for an
        Art-Net ID with a truncated OpCode, and encoding the reply can throw. */
    method HandleArtPoll(data: seq<byte>, address: string) returns (r: Outcome)
      modifies communicator`outbox
      ensures PollPacket.Is(data).Err? ==> r == Fail(PollPacket.Is(data).error) && communicator.outbox == old(communicator.outbox)
      ensures (PollPacket.Is(data) == Ok(false) || (PollPacket.Is(data).Ok? && !sendArtPollReply)) ==>
        r == Pass && communicator.outbox == old(communicator.outbox)
      ensures PollPacket.Is(data) == Ok(true) && sendArtPollReply ==>
        var bytes := Encoded(reply, Layout(PollReplyPacket.PollReplySchema()));
        (bytes.Err? ==> r == Fail(bytes.error) && communicator.outbox == old(communicator.outbox)) &&
        (bytes.Ok? ==> r == Pass && communicator.outbox == old(communicator.outbox) + [Datagram(bytes.value, address)])
    {
      var isPoll := PollPacket.Is(data);
      if isPoll.Err? {
        return Fail(isPoll.error);
      }
      if !isPoll.value || !sendArtPollReply {
        return Pass;
      }
      var bytes := Encoded(reply, Layout(PollReplyPacket.PollReplySchema()));
      if bytes.Err? {
        return Fail(bytes.error);
      }
      communicator.Send(bytes.value, address);
      return Pass;
    }

    /** `handleArtNetDeviceReply`: an ArtPollReply is decoded with the reply packet's
        schema and registers or refreshes its node; anything else is ignored. */
    method HandleArtNetDeviceReply(data: seq<byte>, now: int) returns (r: Outcome)
      requires Valid()
      modifies nodeManager, nodeManager.Repr()
      ensures Valid()
      ensures PollReplyPacket.Is(data).Err? ==> r == Fail(PollReplyPacket.Is(data).error) && unchanged(nodeManager)
      ensures PollReplyPacket.Is(data) == Ok(false) ==> r == Pass && unchanged(nodeManager)
      ensures PollReplyPacket.Is(data) == Ok(true) ==>
        var d := Decoded(data, Layout(PollReplyPacket.PollReplySchema())).0;
        (d.Err? ==> r == Fail(d.error) && unchanged(nodeManager)) &&
        (d.Ok? ==> (
           r == Pass && ReplyTyped(d.value) &&
           exists n :: n in nodeManager.nodes && n.reply == d.value && n.lastResponseTime == now))
    {
      var isReply := PollReplyPacket.Is(data);
      if isReply.Err? {
        return Fail(isReply.error);
      }
      if !isReply.value {
        return Pass;
      }
      var decoded := Decoded(data, Layout(PollReplyPacket.PollReplySchema())).0;
      if decoded.Err? {
        return Fail(decoded.error);
      }
      DecodedReplyTyped(data);
      var n := nodeManager.AddOrUpdateNode(decoded.value, now);
      return Pass;
    }
  }
}
