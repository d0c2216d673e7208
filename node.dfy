/** packages/artnet-lib/core/node/node: a node found on the network, as its last ArtPollReply
    describes it, with the universes attached to its output ports. The time a reply arrived
    is given to the operations that record one, and the datagrams a node sends go to its
    communicator's outbox. */
module Nodes {
  import opened Wrappers
  import opened ByteOrder
  import opened Encoder
  import opened ArtNetPackets
  import opened JsStrings
  import OrderedMaps
  import opened Universes
  import opened DmxPacket
  import opened Communicators
  import AddressPacket
  import Schemas

  // ---------------------------------------------------------------- the reply

  /** The fields of `PollReplyPacketPayload` a node reads, of the kinds its type gives them. */
  predicate ReplyTyped(p: Payload<Key>) {
    ShortName in p && p[ShortName].Str? && LongName in p && p[LongName].Str? &&
    IpAddress in p && p[IpAddress].Arr? && MacAddress in p && p[MacAddress].Arr? &&
    NetSwitch in p && p[NetSwitch].Num? && NetSubSwitch in p && p[NetSubSwitch].Num? &&
    SwOut in p && p[SwOut].Arr? && NumPorts in p && p[NumPorts].Num? && BindIndex in p && p[BindIndex].Num?
  }

  /** Numbers as `array.join('.')` writes them. */
  function Dotted(a: seq<int>): string {
    JoinNumbers(a, '.')
  }

  lemma JoinHead(parts: seq<string>, sep: char)
    requires |parts| >= 1 && |parts[0]| >= 1
    ensures |Join(parts, sep)| >= 1
  {
  }

  lemma IntToStringNonEmpty(n: int)
    ensures |IntToString(n)| >= 1
  {
  }

  /** The dotted text tells number lists apart, so two replies give the same MAC key
      exactly when their MAC arrays are equal. */
  lemma DottedInjective(a: seq<int>, b: seq<int>)
    ensures Dotted(a) == Dotted(b) <==> a == b
  {
    if Dotted(a) == Dotted(b) && a != b {
      var pa := seq(|a|, i requires 0 <= i < |a| => IntToString(a[i]));
      var pb := seq(|b|, i requires 0 <= i < |b| => IntToString(b[i]));
      if |a| == 0 {
        IntToStringNonEmpty(b[0]);
        JoinHead(pb, '.');
        assert false;
      } else if |b| == 0 {
        IntToStringNonEmpty(a[0]);
        JoinHead(pa, '.');
        assert false;
      } else {
        SplitJoinNumbers(a, '.');
        SplitJoinNumbers(b, '.');
        assert pa == pb;
        assert |a| == |b|;
        var i :| 0 <= i < |a| && a[i] != b[i];
        assert pa[i] == pb[i];
        ParseIntOfString(a[i]);
        ParseIntOfString(b[i]);
        assert false;
      }
    }
  }

  /** `swOut[port]`: undefined outside the array. */
  function SwOutAt(p: Payload<Key>, port: int): Option<int>
    requires ReplyTyped(p)
  {
    var a := p[SwOut].a;
    if 0 <= port < |a| then Some(a[port]) else None
  }

  /** `NodeInfo`: the port and status part of a reply. */
  datatype NodeInfo = NodeInfo(netSwitch: Value, netSubSwitch: Value, nodeReport: Value, swOut: Value,
                               swIn: Value, numPorts: Value, portTypes: Value)

  /** A property read: `undefined` when the object lacks it. */
  function Field(p: Payload<Key>, k: Key): (r: Value)
    ensures k in p ==> r == p[k]
    ensures k !in p ==> r == Undefined
  {
    if k in p then p[k] else Undefined
  }

  /** `getNodeInfo`: the port and status fields of the reply, destructured. */
  function GetNodeInfo(p: Payload<Key>): NodeInfo {
    NodeInfo(Field(p, NetSwitch), Field(p, NetSubSwitch), Field(p, NodeReport), Field(p, SwOut),
             Field(p, SwIn), Field(p, NumPorts), Field(p, PortTypes))
  }

  /** `assertPortsCount(port)`. */
  function PortsCheck(p: Payload<Key>, port: int): (r: Outcome)
    requires ReplyTyped(p)
  {
    if port >= p[NumPorts].n then Fail(LibError(NodePortsLimit)) else Pass
  }

  /** How many of the ports, from the first, pass `assertPortsCount`: `forEach` stops with
      the exception of the first that does not. */
  function PassingPrefix(p: Payload<Key>, keys: seq<int>): (m: nat)
    requires ReplyTyped(p)
    ensures m <= |keys|
    ensures forall j :: 0 <= j < m ==> PortsCheck(p, keys[j]).Pass?
    ensures m < |keys| ==> PortsCheck(p, keys[m]).Fail?
    decreases |keys|
  {
    if |keys| == 0 || PortsCheck(p, keys[0]).Fail? then 0
    else
      var rest := PassingPrefix(p, keys[1..]);
      assert forall j :: 1 <= j < |keys| ==> keys[j] == keys[1..][j - 1];
      1 + rest
  }

  /** The port count `assertPortsCount` reads from `getNodeInfo` is the reply's: a port
      passes exactly when it is below it, and otherwise fails with NODE_PORTS_LIMIT. */
  lemma PortsCheckSpec(p: Payload<Key>, port: int)
    requires ReplyTyped(p)
    ensures GetNodeInfo(p).numPorts == p[NumPorts]
    ensures PortsCheck(p, port).Pass? <==> port < GetNodeInfo(p).numPorts.n
    ensures PortsCheck(p, port).Fail? ==> PortsCheck(p, port).error == LibError(NodePortsLimit)
  {
  }

  // ---------------------------------------------------------------- Address packets

  /** The ArtAddress payload of `configure(config)`: the reply's names, switches and output
      ports (also as inputs) and bind index, then the caller's fields over them. */
  function ConfigData(p: Payload<Key>, config: Payload<Key>): Payload<Key>
    requires ReplyTyped(p)
  {
    ResetData(p) + config
  }

  /** The ArtAddress payload of `resetToPhysicalSwitch`. */
  function ResetData(p: Payload<Key>): Payload<Key>
    requires ReplyTyped(p)
  {
    map[ShortName := p[ShortName], LongName := p[LongName], NetSwitch := p[NetSwitch],
        NetSubSwitch := p[NetSubSwitch], SwOut := p[SwOut], SwIn := p[SwOut], BindIndex := p[BindIndex]]
  }

  /** The bytes `configure` sends: the ArtAddress with bit 7 set. A `swIn` or `swOut` that
      is not an array makes its `map` throw. */
  function ConfiguredBytes(p: Payload<Key>, config: Payload<Key>): Result<seq<byte>>
    requires ReplyTyped(p)
  {
    AppliedBytes(ConfigData(p, config))
  }

  /** `new Address(data).applyPortsConfig().encode()`. */
  function AppliedBytes(data: Payload<Key>): Result<seq<byte>> {
    var a := AddressPacket.AddressPayload(data);
    if !AddressPacket.PortsTyped(a) then Err(TypeError)
    else Encoded(AddressPacket.Applied(a), Layout(AddressPacket.AddressSchema()))
  }

  /** The bytes `resetToPhysicalSwitch` sends: the ArtAddress with bit 7 clear. */
  function ResetBytes(p: Payload<Key>): Result<seq<byte>>
    requires ReplyTyped(p)
  {
    PhysicalBytes(ResetData(p))
  }

  /** `new Address(data).resetToPhysicalPortsConfig().encode()`. */
  function PhysicalBytes(data: Payload<Key>): Result<seq<byte>> {
    var a := AddressPacket.AddressPayload(data);
    if !AddressPacket.PortsTyped(a) then Err(TypeError)
    else Encoded(AddressPacket.Reset(a), Layout(AddressPacket.AddressSchema()))
  }

  /** Builds, programs and encodes an ArtAddress. */
  method EncodeApplied(data: Payload<Key>) returns (b: Result<seq<byte>>)
    ensures b == AppliedBytes(data)
  {
    var art := new AddressPacket.Address(data);
    if !AddressPacket.PortsTyped(art.payload) {
      return Err(TypeError);
    }
    art.ApplyPortsConfig();
    b := art.Encode();
  }

  /** Builds, resets and encodes an ArtAddress. */
  method EncodePhysical(data: Payload<Key>) returns (b: Result<seq<byte>>)
    ensures b == PhysicalBytes(data)
  {
    var art := new AddressPacket.Address(data);
    if !AddressPacket.PortsTyped(art.payload) {
      return Err(TypeError);
    }
    art.ResetToPhysicalPortsConfig();
    b := art.Encode();
  }

  /** A field the payload names is the field `new Address(payload)` holds. */
  lemma AddressOver(o: Payload<Key>, k: Key)
    requires k in o
    ensures k in AddressPacket.AddressPayload(o) && AddressPacket.AddressPayload(o)[k] == o[k]
  {
    var d := AddressPacket.AddressDefaults() + o;
    assert k in d && d[k] == o[k];
  }

  /** The fields of the ArtAddress payload built from a reply, before bit 7 is touched. */
  lemma ResetDataFields(p: Payload<Key>, config: Payload<Key>)
    requires ReplyTyped(p)
    ensures var a := AddressPacket.AddressPayload(ResetData(p));
      a[ShortName] == p[ShortName] && a[LongName] == p[LongName] && a[BindIndex] == p[BindIndex] &&
      a[NetSwitch] == p[NetSwitch] && a[NetSubSwitch] == p[NetSubSwitch] &&
      a[SwOut] == p[SwOut] && a[SwIn] == p[SwOut]
  {
    var r := ResetData(p);
    AddressOver(r, ShortName);
    AddressOver(r, LongName);
    AddressOver(r, BindIndex);
    AddressOver(r, NetSwitch);
    AddressOver(r, NetSubSwitch);
    AddressOver(r, SwOut);
    AddressOver(r, SwIn);
  }

  /** `applyPortsConfig` on a payload whose ports are arrays and whose switches are numbers. */
  lemma AppliedFields(a: Payload<Key>)
    requires AddressPacket.PortsTyped(a) && ShortName in a && LongName in a && BindIndex in a
    requires NetSwitch in a && a[NetSwitch].Num? && NetSubSwitch in a && a[NetSubSwitch].Num?
    ensures var q := AddressPacket.Applied(a);
      q[ShortName] == a[ShortName] && q[LongName] == a[LongName] && q[BindIndex] == a[BindIndex] &&
      q[NetSwitch] == Num(AddressPacket.Programmed(a[NetSwitch].n)) &&
      q[NetSubSwitch] == Num(AddressPacket.Programmed(a[NetSubSwitch].n)) &&
      q[SwOut] == Arr(AddressPacket.ProgramAll(a[SwOut].a)) &&
      q[SwIn] == Arr(AddressPacket.ProgramAll(a[SwIn].a))
  {
    var v1, v2 := Num(AddressPacket.Programmed(a[NetSwitch].n)), Num(AddressPacket.Programmed(a[NetSubSwitch].n));
    var v3, v4 := Arr(AddressPacket.ProgramAll(a[SwOut].a)), Arr(AddressPacket.ProgramAll(a[SwIn].a));
    assert AddressPacket.Applied(a) == a[NetSwitch := v1][NetSubSwitch := v2][SwOut := v3][SwIn := v4];
    AddressPacket.UpdatesKeepOthers(a, v1, v2, v3, v4);
    AddressPacket.PortsUpdated(a, v1, v2, v3, v4);
  }

  /** `resetToPhysicalPortsConfig` on such a payload. */
  lemma ResetFieldsOf(a: Payload<Key>)
    requires AddressPacket.PortsTyped(a) && ShortName in a && LongName in a && BindIndex in a
    requires NetSwitch in a && a[NetSwitch].Num? && NetSubSwitch in a && a[NetSubSwitch].Num?
    ensures var q := AddressPacket.Reset(a);
      q[ShortName] == a[ShortName] && q[LongName] == a[LongName] && q[BindIndex] == a[BindIndex] &&
      q[NetSwitch] == Num(AddressPacket.Physical(a[NetSwitch].n)) &&
      q[NetSubSwitch] == Num(AddressPacket.Physical(a[NetSubSwitch].n)) &&
      q[SwOut] == Arr(AddressPacket.PhysicalAll(a[SwOut].a)) &&
      q[SwIn] == Arr(AddressPacket.PhysicalAll(a[SwIn].a))
  {
    var v1, v2 := Num(AddressPacket.Physical(a[NetSwitch].n)), Num(AddressPacket.Physical(a[NetSubSwitch].n));
    var v3, v4 := Arr(AddressPacket.PhysicalAll(a[SwOut].a)), Arr(AddressPacket.PhysicalAll(a[SwIn].a));
    assert AddressPacket.Reset(a) == a[NetSwitch := v1][NetSubSwitch := v2][SwOut := v3][SwIn := v4];
    AddressPacket.UpdatesKeepOthers(a, v1, v2, v3, v4);
    AddressPacket.PortsUpdated(a, v1, v2, v3, v4);
  }

  /** Without overrides, `configure` sends the node's own names and bind index, its switches
      and output ports with bit 7 set, and its output ports again as its input ports. */
  lemma ConfigureDefaults(p: Payload<Key>)
    requires ReplyTyped(p)
    ensures var a := AddressPacket.AddressPayload(ConfigData(p, map[]));
      AddressPacket.PortsTyped(a) &&
      var q := AddressPacket.Applied(a);
      q[ShortName] == p[ShortName] && q[LongName] == p[LongName] && q[BindIndex] == p[BindIndex] &&
      q[NetSwitch] == Num(AddressPacket.Programmed(p[NetSwitch].n)) &&
      q[NetSubSwitch] == Num(AddressPacket.Programmed(p[NetSubSwitch].n)) &&
      q[SwOut] == Arr(AddressPacket.ProgramAll(p[SwOut].a)) &&
      q[SwIn] == Arr(AddressPacket.ProgramAll(p[SwOut].a))
  {
    assert ConfigData(p, map[]) == ResetData(p);
    ResetDataFields(p, map[]);
    AppliedFields(AddressPacket.AddressPayload(ResetData(p)));
  }

  /** A field the caller names outside the four port fields goes out as given. */
  lemma ConfigureOverride(p: Payload<Key>, config: Payload<Key>, k: Key)
    requires ReplyTyped(p) && k in config && !AddressPacket.PortKey(k)
    requires AddressPacket.PortsTyped(AddressPacket.AddressPayload(ConfigData(p, config)))
    ensures AddressPacket.Applied(AddressPacket.AddressPayload(ConfigData(p, config)))[k] == config[k]
  {
    AddressOver(ConfigData(p, config), k);
    AddressPacket.OthersKept(AddressPacket.AddressPayload(ConfigData(p, config)));
  }

  /** `resetToPhysicalSwitch` sends the same fields with bit 7 of every switch clear. */
  lemma ResetFields(p: Payload<Key>)
    requires ReplyTyped(p)
    ensures var a := AddressPacket.AddressPayload(ResetData(p));
      AddressPacket.PortsTyped(a) &&
      var q := AddressPacket.Reset(a);
      q[ShortName] == p[ShortName] && q[LongName] == p[LongName] && q[BindIndex] == p[BindIndex] &&
      q[NetSwitch] == Num(AddressPacket.Physical(p[NetSwitch].n)) &&
      q[NetSubSwitch] == Num(AddressPacket.Physical(p[NetSubSwitch].n)) &&
      q[SwOut] == Arr(AddressPacket.PhysicalAll(p[SwOut].a)) &&
      q[SwIn] == Arr(AddressPacket.PhysicalAll(p[SwOut].a))
  {
    ResetDataFields(p, map[]);
    ResetFieldsOf(AddressPacket.AddressPayload(ResetData(p)));
  }

  // ---------------------------------------------------------------- attached universes

  /** The universes attached to some port. */
  ghost function Attached(ports: seq<(int, Universe)>): set<Universe> {
    set i | 0 <= i < |ports| :: ports[i].1
  }

  /** Their control packets: what a sync writes. */
  ghost function AttachedPackets(ports: seq<(int, Universe)>): set<Dmx> {
    set i | 0 <= i < |ports| :: ports[i].1.packet
  }

  ghost function AttachedSchemas(ports: seq<(int, Universe)>): set<Schemas.Schema<Key>> {
    set i | 0 <= i < |ports| :: ports[i].1.packet.schema
  }

  ghost predicate AllValid(ports: seq<(int, Universe)>)
    reads Attached(ports), AttachedPackets(ports), AttachedSchemas(ports)
  {
    forall i :: 0 <= i < |ports| ==> ports[i].1.Valid()
  }

  /** The last of the port keys whose attached universe has control packet `d`: the
      address a run of `update`s over those ports leaves in `d`. */
  function LastKeyFor(ports: seq<(int, Universe)>, keys: seq<int>, d: Dmx): (r: Option<int>)
    ensures r.Some? ==> r.value in keys && Reaches(ports, r.value, d)
    decreases |keys|
  {
    if |keys| == 0 then None
    else
      var k := keys[|keys| - 1];
      if Reaches(ports, k, d) then Some(k) else LastKeyFor(ports, keys[..|keys| - 1], d)
  }

  /** The universe attached at `port` has control packet `d`. */
  predicate Reaches(ports: seq<(int, Universe)>, port: int, d: Dmx) {
    var u := OrderedMaps.Get(ports, port);
    u.Some? && u.value.packet == d
  }

  /** A control packet's payload re-addressed from the reply for a port, or as it was. */
  function Readdressed(p: Payload<Key>, reply: Payload<Key>, port: Option<int>): Payload<Key>
    requires ReplyTyped(reply)
  {
    if port.Some? then Addressed(p, reply[NetSwitch].n, reply[NetSubSwitch].n, SwOutAt(reply, port.value)) else p
  }

  /** One more port key: it is the last for `d` when its universe has that packet. */
  lemma LastKeyForStep(ports: seq<(int, Universe)>, keys: seq<int>, i: nat, d: Dmx)
    requires i < |keys|
    ensures LastKeyFor(ports, keys[..i + 1], d) ==
      if Reaches(ports, keys[i], d) then Some(keys[i]) else LastKeyFor(ports, keys[..i], d)
  {
    assert keys[..i + 1][..i] == keys[..i];
  }

  /** Re-addressing a packet for a port after the earlier ones is addressing it for that
      port alone. */
  lemma ReaddressedAgain(p: Payload<Key>, reply: Payload<Key>, earlier: Option<int>, port: int)
    requires ReplyTyped(reply)
    ensures Addressed(Readdressed(p, reply, earlier), reply[NetSwitch].n, reply[NetSubSwitch].n, SwOutAt(reply, port)) ==
      Readdressed(p, reply, Some(port))
  {
    if earlier.Some? {
      AddressedOverwrites(p, reply[NetSwitch].n, reply[NetSubSwitch].n, SwOutAt(reply, earlier.value),
        reply[NetSwitch].n, reply[NetSubSwitch].n, SwOutAt(reply, port));
    }
  }

  /** The first universe with a non-empty name: what `getUniverse(name)` finds. */
  function FirstNonEmptyName(us: seq<Universe>): (r: Option<Universe>)
    reads set i | 0 <= i < |us| :: us[i]
    ensures r.Some? ==> exists i :: (0 <= i < |us| && us[i] == r.value && us[i].name != "" &&
      forall j :: 0 <= j < i ==> us[j].name == "")
    ensures r.None? ==> forall j :: 0 <= j < |us| ==> us[j].name == ""
    decreases |us|
  {
    if |us| == 0 then None
    else if us[0].name != "" then Some(us[0])
    else
      var rest := FirstNonEmptyName(us[1..]);
      assert rest.Some? ==> exists i :: (1 <= i < |us| && us[i] == rest.value && us[i].name != "" &&
        forall j :: 1 <= j < i ==> us[j].name == "");
      rest
  }

  /** The first universe with the given name. */
  function FirstNamed(us: seq<Universe>, name: string): (r: Option<Universe>)
    reads set i | 0 <= i < |us| :: us[i]
    ensures r.Some? ==> exists i :: (0 <= i < |us| && us[i] == r.value && r.value.name == name &&
      forall j :: 0 <= j < i ==> us[j].name != name)
    ensures r.None? ==> forall j :: 0 <= j < |us| ==> us[j].name != name
    decreases |us|
  {
    if |us| == 0 then None
    else if us[0].name == name then Some(us[0])
    else
      var rest := FirstNamed(us[1..], name);
      assert rest.Some? ==> exists i :: (1 <= i < |us| && us[i] == rest.value && rest.value.name == name &&
        forall j :: 1 <= j < i ==> us[j].name != name);
      rest
  }

  /** `getUniverse(name)` as written ignores the name: when the first attached universe is
      named, it is the answer whatever name is asked for. */
  lemma UniverseByNameIgnoresName(us: seq<Universe>, name: string)
    requires |us| >= 1 && us[0].name != "" && us[0].name != name
    ensures FirstNonEmptyName(us) == Some(us[0]) && FirstNonEmptyName(us).value.name != name
  {
  }

  /** Attaching to a free port and then detaching from it leaves the ports as they were. */
  lemma DetachAfterAttach(ports: seq<(int, Universe)>, port: int, u: Universe)
    requires OrderedMaps.Get(ports, port).None?
    ensures OrderedMaps.Remove(OrderedMaps.Put(ports, port, u), port) == ports
  {
    var m := OrderedMaps.Put(ports, port, u);
    assert m == ports + [(port, u)];
    OrderedMaps.IndexOfAt(m, port, |ports|);
    assert m[..|ports|] == ports;
  }

  /** A frame changes only the levels and the sequence: the port address stays. */
  lemma FrameKeepsAddress(p: Payload<Key>, count: nat, data: seq<int>)
    requires Complete(p)
    ensures var q := Frame(p, count, data).1;
      Complete(q) && AddressInfo(q) == AddressInfo(p)
  {
  }

  /** What a sync of a port sends and leaves in its packet: the packet addressed from the
      reply and that port, then framed. */
  function PortFrame(p: Payload<Key>, reply: Payload<Key>, port: int, count: nat, data: seq<int>): (Result<seq<byte>>, Payload<Key>)
    requires Complete(p) && ReplyTyped(reply)
  {
    Frame(Addressed(p, reply[NetSwitch].n, reply[NetSubSwitch].n, SwOutAt(reply, port)), count, data)
  }

  /** A port synced with a reply whose address fits carries the reply's port address; a port
      past the end of `swOut` carries the reply's net with sub-net and universe 0. */
  lemma PortFrameAddress(p: Payload<Key>, reply: Payload<Key>, port: int, count: nat, data: seq<int>)
    requires Complete(p) && ReplyTyped(reply)
    requires AddressFits(reply[NetSubSwitch].n, SwOutAt(reply, port))
    ensures var q := PortFrame(p, reply, port, count, data).1;
      Complete(q) && AddressInfo(q) == StoredAddress(reply[NetSwitch].n, reply[NetSubSwitch].n, SwOutAt(reply, port))
  {
    var a := Addressed(p, reply[NetSwitch].n, reply[NetSubSwitch].n, SwOutAt(reply, port));
    AddressRoundTrip(p, reply[NetSwitch].n, reply[NetSubSwitch].n, SwOutAt(reply, port));
    FrameKeepsAddress(a, count, data);
  }

  /** The outcome of a send of `bytes` to `address`: it joins the outbox, or the error is
      returned and nothing is sent. */
  predicate Delivered(r: Outcome, bytes: Result<seq<byte>>, before: seq<Datagram>, after: seq<Datagram>, address: string) {
    (bytes.Ok? ==> r == Pass && after == before + [Datagram(bytes.value, address)]) &&
    (bytes.Err? ==> r == Fail(bytes.error) && after == before)
  }

  /** `after` is `before` and then `n` datagrams to `address`. */
  predicate SentTo(before: seq<Datagram>, after: seq<Datagram>, address: string, n: nat) {
    |after| == |before| + n && after[..|before|] == before &&
    forall j :: |before| <= j < |after| ==> after[j].address == address
  }

  lemma SentNone(before: seq<Datagram>, address: string)
    ensures SentTo(before, before, address, 0)
  {
  }

  lemma SentOneMore(before: seq<Datagram>, after: seq<Datagram>, address: string, n: nat, data: seq<byte>)
    requires SentTo(before, after, address, n)
    ensures SentTo(before, after + [Datagram(data, address)], address, n + 1)
  {
    assert (after + [Datagram(data, address)])[..|before|] == after[..|before|];
  }

  // ---------------------------------------------------------------- the node

  class Node {
    /** `pollReplyPayload`. */
    var reply: Payload<Key>
    /** `_lastResponseTime`, in milliseconds. */
    var lastResponseTime: int
    /** `ports`: port number to universe, in insertion order. */
    var ports: seq<(int, Universe)>
    var isAlive: bool
    /** `networkCommunicator`. */
    const communicator: Communicator

    ghost predicate Valid()
      reads this`reply, this`ports
    {
      ReplyTyped(reply) && OrderedMaps.UniqueKeys(ports)
    }

    /** `new Node(pollReplyPayload, communicator)` at time `now`. */
    constructor (reply: Payload<Key>, communicator: Communicator, now: int)
      requires ReplyTyped(reply)
      ensures Valid() && this.reply == reply && lastResponseTime == now
      ensures ports == [] && !isAlive && this.communicator == communicator
    {
      this.reply := reply;
      lastResponseTime := now;
      ports := [];
      isAlive := false;
      this.communicator := communicator;
    }

    /** `update(payload)` at time `now`: the reply replaces the old one. */
    method Update(reply: Payload<Key>, now: int)
      requires Valid() && ReplyTyped(reply)
      modifies this
      ensures Valid() && this.reply == reply && lastResponseTime == now
      ensures ports == old(ports) && isAlive == old(isAlive)
    {
      this.reply := reply;
      lastResponseTime := now;
    }

    /** `name`: the long name. */
    function Name(): seq<byte>
      reads this
      requires Valid()
    {
      reply[LongName].s
    }

    /** `ipAddress`. */
    function IpAddressText(): string
      reads this
      requires Valid()
    {
      Dotted(reply[IpAddress].a)
    }

    /** `macAddress`: the key the node manager identifies nodes by. */
    function MacAddressText(): string
      reads this
      requires Valid()
    {
      Dotted(reply[MacAddress].a)
    }

    /** `getAttachedUniverses`: in the order the ports were first attached. */
    function GetAttachedUniverses(): (r: seq<Universe>)
      reads this
      ensures |r| == |ports| && forall i :: 0 <= i < |r| ==> r[i] == ports[i].1
    {
      var ps := ports;
      seq(|ps|, i requires 0 <= i < |ps| => ps[i].1)
    }

    /** `attachUniverse(port, universe)`: addresses the universe from the reply's switches
        and the port's `swOut`, then maps the port to it. */
    method AttachUniverse(port: int, u: Universe) returns (r: Result<Universe>)
      requires Valid() && u.Valid()
      modifies this, u.packet
      ensures Valid() && reply == old(reply) && lastResponseTime == old(lastResponseTime) && isAlive == old(isAlive)
      ensures u.Valid()
      ensures PortsCheck(reply, port).Fail? ==>
        r == Err(LibError(NodePortsLimit)) && ports == old(ports) && u.packet.payload == old(u.packet.payload)
      ensures PortsCheck(reply, port).Pass? ==>
        r == Ok(u) && ports == OrderedMaps.Put(old(ports), port, u) &&
        u.packet.payload == Addressed(old(u.packet.payload), reply[NetSwitch].n, reply[NetSubSwitch].n, SwOutAt(reply, port))
      ensures r.Ok? ==> GetUniverse(port) == Ok(Some(u))
      ensures r.Ok? && AddressFits(reply[NetSubSwitch].n, SwOutAt(reply, port)) ==>
        u.GetPortAddressInfo() == StoredAddress(reply[NetSwitch].n, reply[NetSubSwitch].n, SwOutAt(reply, port))
    {
      var check := PortsCheck(reply, port);
      if check.Fail? {
        return Err(check.error);
      }
      u.Update(reply[NetSwitch].n, reply[NetSubSwitch].n, SwOutAt(reply, port));
      OrderedMaps.PutSpec(ports, port, u);
      ports := OrderedMaps.Put(ports, port, u);
      r := Ok(u);
    }

    /** `detachUniverse(port)`: the universe that was there, or null. */
    method DetachUniverse(port: int) returns (r: Option<Universe>)
      requires Valid()
      modifies this
      ensures Valid() && reply == old(reply) && lastResponseTime == old(lastResponseTime) && isAlive == old(isAlive)
      ensures r == OrderedMaps.Get(old(ports), port)
      ensures ports == OrderedMaps.Remove(old(ports), port)
      ensures OrderedMaps.Get(ports, port).None?
      ensures forall q :: q != port ==> OrderedMaps.Get(ports, q) == OrderedMaps.Get(old(ports), q)
    {
      r := OrderedMaps.Get(ports, port);
      OrderedMaps.RemoveSpec(ports, port);
      if r.None? {
        return;
      }
      ports := OrderedMaps.Remove(ports, port);
    }

    /** `getUniverse(port)`. */
    function GetUniverse(port: int): (r: Result<Option<Universe>>)
      reads this
      requires Valid()
      ensures r.Err? <==> PortsCheck(reply, port).Fail?
      ensures r.Ok? ==> r.value == OrderedMaps.Get(ports, port)
    {
      var check := PortsCheck(reply, port);
      if check.Fail? then Err(check.error) else Ok(OrderedMaps.Get(ports, port))
    }

    /** `getUniverse(name)` as written: the first attached universe with a non-empty name,
        whatever the name asked for. */
    function GetUniverseByName(name: string): (r: Option<Universe>)
      reads this, Attached(ports)
      ensures r.Some? ==> r.value in Attached(ports) && r.value.name != ""
    {
      var us := GetAttachedUniverses();
      assert (set i | 0 <= i < |us| :: us[i]) == Attached(ports) by {
        forall x | x in Attached(ports) ensures x in set i | 0 <= i < |us| :: us[i] {
          var i :| 0 <= i < |ports| && ports[i].1 == x;
          assert us[i] == x;
        }
      }
      var r := FirstNonEmptyName(us);
      assert r.Some? ==> r.value in Attached(ports);
      r
    }

    /** `getUniverse(name)` as evidently intended: the first attached universe with that name. */
    function GetUniverseNamed(name: string): (r: Option<Universe>)
      reads this, Attached(ports)
      ensures r.Some? ==> r.value in Attached(ports) && r.value.name == name
      ensures r.None? ==> forall i :: 0 <= i < |ports| ==> ports[i].1.name != name
    {
      var us := GetAttachedUniverses();
      assert (set i | 0 <= i < |us| :: us[i]) == Attached(ports) by {
        forall x | x in Attached(ports) ensures x in set i | 0 <= i < |us| :: us[i] {
          var i :| 0 <= i < |ports| && ports[i].1 == x;
          assert us[i] == x;
        }
      }
      var r := FirstNamed(us, name);
      assert r.Some? ==> r.value in Attached(ports);
      r
    }

    /** `syncRemotePort(universe)`: the universe's frame goes to the node's address. */
    method SyncUniverse(u: Universe) returns (r: Outcome)
      requires Valid() && u.Valid()
      modifies communicator, u.packet
      ensures u.Valid()
      ensures var f := Frame(old(u.packet.payload), u.packet.count, DeviceData(u.devices));
        u.packet.payload == f.1 && Delivered(r, f.0, old(communicator.outbox), communicator.outbox, IpAddressText())
      ensures communicator.broadcastIpAddress == old(communicator.broadcastIpAddress)
    {
      var built := u.BuildDmxData();
      if built.Err? {
        return Fail(built.error);
      }
      communicator.Send(built.value, IpAddressText());
      r := Pass;
    }

    /** The control packet of the universe on a port, if one is attached. */
    function PortPacket(port: int): set<Dmx>
      reads this
    {
      var found := OrderedMaps.Get(ports, port);
      if found.Some? then {found.value.packet} else {}
    }

    /** `syncRemotePort(port)`: re-addresses the port's universe from the current reply, then
        sends its frame; a port above the count throws and an empty one rejects. */
    method SyncPort(port: int) returns (r: Outcome)
      requires Valid()
      requires OrderedMaps.Get(ports, port).Some? ==> OrderedMaps.Get(ports, port).value.Valid()
      modifies communicator, PortPacket(port)
      ensures communicator.broadcastIpAddress == old(communicator.broadcastIpAddress)
      ensures PortsCheck(reply, port).Fail? ==>
        r == Fail(LibError(NodePortsLimit)) && communicator.outbox == old(communicator.outbox) && unchanged(PortPacket(port))
      ensures PortsCheck(reply, port).Pass? && OrderedMaps.Get(ports, port).None? ==>
        r == Fail(NoUniverseOnPort(port)) && communicator.outbox == old(communicator.outbox)
      ensures PortsCheck(reply, port).Pass? && OrderedMaps.Get(ports, port).Some? ==>
        var u := OrderedMaps.Get(ports, port).value;
        var f := PortFrame(old(u.packet.payload), reply, port, u.packet.count, DeviceData(u.devices));
        u.Valid() && u.packet.payload == f.1 &&
        Delivered(r, f.0, old(communicator.outbox), communicator.outbox, IpAddressText())
    {
      var check := PortsCheck(reply, port);
      if check.Fail? {
        return check;
      }
      var found := OrderedMaps.Get(ports, port);
      if found.None? {
        return Fail(NoUniverseOnPort(port));
      }
      var u := found.value;
      u.Update(reply[NetSwitch].n, reply[NetSubSwitch].n, SwOutAt(reply, port));
      r := SyncUniverse(u);
    }

    /** Each attached universe is valid after one of them was updated, since a control packet
        shared by two universes is the same packet. */
    lemma KeepValid(u: Universe)
      requires u.Valid()
      requires forall i :: 0 <= i < |ports| && ports[i].1.packet != u.packet ==> ports[i].1.Valid()
      ensures AllValid(ports)
    {
    }

    /** `updateUniverseAddressInfo(ports)`: port by port, the count check, then the universe
        attached there (if any) re-addressed from the reply. The ports before the first one
        past `numPorts` are done; each control packet ends up addressed for the last of them
        that reaches it, and one none reaches is left as it was. */
    method UpdateUniverseAddressInfo(keys: seq<int>) returns (r: Outcome)
      requires Valid() && AllValid(ports)
      modifies AttachedPackets(ports)
      ensures AllValid(ports)
      ensures r.Pass? <==> forall i :: 0 <= i < |keys| ==> PortsCheck(reply, keys[i]).Pass?
      ensures r.Fail? ==> r == Fail(LibError(NodePortsLimit))
      ensures var done := keys[..PassingPrefix(reply, keys)];
        forall a :: 0 <= a < |ports| ==>
          ports[a].1.packet.payload == Readdressed(old(ports[a].1.packet.payload), reply, LastKeyFor(ports, done, ports[a].1.packet))
    {
      var i := 0;
      while i < |keys|
        invariant 0 <= i <= |keys| && AllValid(ports)
        invariant forall j :: 0 <= j < i ==> PortsCheck(reply, keys[j]).Pass?
        invariant forall a :: 0 <= a < |ports| ==>
          ports[a].1.packet.payload == Readdressed(old(ports[a].1.packet.payload), reply, LastKeyFor(ports, keys[..i], ports[a].1.packet))
      {
        var check := UpdatePortAddress(keys[i]);
        if check.Fail? {
          assert PassingPrefix(reply, keys) == i;
          return check;
        }
        forall a | 0 <= a < |ports|
          ensures ports[a].1.packet.payload ==
            Readdressed(old(ports[a].1.packet.payload), reply, LastKeyFor(ports, keys[..i + 1], ports[a].1.packet))
        {
          LastKeyForStep(ports, keys, i, ports[a].1.packet);
          if Reaches(ports, keys[i], ports[a].1.packet) {
            ReaddressedAgain(old(ports[a].1.packet.payload), reply, LastKeyFor(ports, keys[..i], ports[a].1.packet), keys[i]);
          }
        }
        i := i + 1;
      }
      assert keys[..|keys|] == keys;
      r := Pass;
    }

    /** The `forEach` callback of `updateUniverseAddressInfo` for one port: the count check,
        then the universe attached there, if any, re-addressed from the reply; every packet
        that universe does not own is left as it was. */
    method UpdatePortAddress(port: int) returns (r: Outcome)
      requires Valid() && AllValid(ports)
      modifies AttachedPackets(ports)
      ensures AllValid(ports) && r == PortsCheck(reply, port)
      ensures forall a :: 0 <= a < |ports| ==>
        ports[a].1.packet.payload ==
          if r.Pass? && Reaches(ports, port, ports[a].1.packet) then
            Addressed(old(ports[a].1.packet.payload), reply[NetSwitch].n, reply[NetSubSwitch].n, SwOutAt(reply, port))
          else old(ports[a].1.packet.payload)
    {
      r := PortsCheck(reply, port);
      if r.Fail? {
        return;
      }
      var found := OrderedMaps.Get(ports, port);
      if found.Some? {
        var u := found.value;
        assert u in Attached(ports) by {
          assert ports[OrderedMaps.IndexOf(ports, port).value].1 == u;
        }
        u.Update(reply[NetSwitch].n, reply[NetSubSwitch].n, SwOutAt(reply, port));
        KeepValid(u);
      }
    }

    /** The second half of `syncAll`: every attached universe's frame, in port order, to the
        node's address; the first frame that cannot be built stops it. */
    method SendFrames() returns (r: Outcome)
      requires Valid() && AllValid(ports)
      modifies communicator, AttachedPackets(ports)
      ensures AllValid(ports)
      ensures exists n :: (0 <= n <= |ports| && SentTo(old(communicator.outbox), communicator.outbox, IpAddressText(), n) &&
        (r.Pass? ==> n == |ports|))
    {
      var i := 0;
      while i < |ports|
        invariant 0 <= i <= |ports| && AllValid(ports)
        invariant SentTo(old(communicator.outbox), communicator.outbox, IpAddressText(), i)
      {
        var u := ports[i].1;
        assert u in Attached(ports);
        ghost var sent := communicator.outbox;
        var built := u.BuildDmxData();
        KeepValid(u);
        if built.Err? {
          assert communicator.outbox == sent;
          assert SentTo(old(communicator.outbox), communicator.outbox, IpAddressText(), i);
          return Fail(built.error);
        }
        ghost var before := communicator.outbox;
        communicator.Send(built.value, IpAddressText());
        SentOneMore(old(communicator.outbox), before, IpAddressText(), i, built.value);
        i := i + 1;
      }
      r := Pass;
    }

    /** `syncAll`: re-addresses every attached universe, then sends every frame. */
    method SyncAll() returns (r: Outcome)
      requires Valid() && AllValid(ports)
      modifies communicator, AttachedPackets(ports)
      ensures AllValid(ports)
      ensures (exists i :: 0 <= i < |ports| && PortsCheck(reply, ports[i].0).Fail?) ==>
        r == Fail(LibError(NodePortsLimit)) && communicator.outbox == old(communicator.outbox)
      ensures exists n :: (0 <= n <= |ports| && SentTo(old(communicator.outbox), communicator.outbox, IpAddressText(), n) &&
        (r.Pass? ==> n == |ports|))
    {
      var keys := OrderedMaps.Keys(ports);
      r := UpdateUniverseAddressInfo(keys);
      if r.Fail? {
        SentNone(communicator.outbox, IpAddressText());
        return;
      }
      r := SendFrames();
    }

    /** `configure(config)`: an ArtAddress built from the reply, with the caller's fields
        over it and bit 7 set, goes to the node. */
    method Configure(config: Payload<Key>) returns (r: Outcome)
      requires Valid()
      modifies communicator
      ensures Delivered(r, ConfiguredBytes(reply, config), old(communicator.outbox), communicator.outbox, IpAddressText())
      ensures communicator.broadcastIpAddress == old(communicator.broadcastIpAddress)
    {
      var bytes := EncodeApplied(ConfigData(reply, config));
      if bytes.Err? {
        return Fail(bytes.error);
      }
      communicator.Send(bytes.value, IpAddressText());
      r := Pass;
    }

    /** `resetToPhysicalSwitch`: the same ArtAddress without overrides and with bit 7 clear. */
    method ResetToPhysicalSwitch() returns (r: Outcome)
      requires Valid()
      modifies communicator
      ensures Delivered(r, ResetBytes(reply), old(communicator.outbox), communicator.outbox, IpAddressText())
      ensures communicator.broadcastIpAddress == old(communicator.broadcastIpAddress)
    {
      var bytes := EncodePhysical(ResetData(reply));
      if bytes.Err? {
        return Fail(bytes.error);
      }
      communicator.Send(bytes.value, IpAddressText());
      r := Pass;
    }
  }
}
