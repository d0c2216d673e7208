/** packages/artnet-lib/core/communicator: the UDP endpoint the library sends through. The
    socket is replaced by an outbox of datagrams and the host's network interfaces by a list
    given to the operations that enumerate them. */
module Communicators {
  import opened Wrappers
  import opened ByteOrder
  import opened JsNumbers
  import opened JsStrings

  const ARTNET_PORT: int := 6454
  const DEFAULT_NETWORK: string := "0.0.0.0"
  const DEFAULT_NETMASK: string := "0.0.0.0"
  /** The MAC address used when the host lists no interface. */
  const NO_MAC: string := "00:00:00:00:00:00"

  /** `NetworkConfig`: the address and mask the socket is bound to, and the port. */
  datatype NetworkConfig = NetworkConfig(networkIp: string, networkMask: string, port: int)

  /** One entry of `os.networkInterfaces()`: its address and its MAC address. */
  datatype NetworkInterface = NetworkInterface(address: string, mac: string)

  /** A datagram handed to the socket, with the address it goes to. */
  datatype Datagram = Datagram(data: seq<byte>, address: string)

  // ---------------------------------------------------------------- broadcast address

  /** The number a bitwise operator makes of a Number: NaN becomes 0. */
  function NanToZero(x: Option<int>): int {
    if x.Some? then x.value else 0
  }

  /** `(~netmaskArray[i] & 0xff) | parseInt(e)`. A missing mask octet is `undefined`,
      which `~` treats as NaN. */
  function BroadcastOctet(masks: seq<string>, i: nat, e: string): int {
    Or(AndNot(0xff, MaskOctet(masks, i)), NanToZero(ParseInt(e, 0)))
  }

  /** `netmaskArray[i]` as `~` sees it. */
  function MaskOctet(masks: seq<string>, i: nat): int {
    if i < |masks| then NanToZero(NumberOf(masks[i])) else 0
  }

  /** The octets of `getBroadcastAddress`, one per piece of the address. */
  function BroadcastOctets(ip: string, mask: string): (r: seq<int>)
    ensures |r| == |Split(ip, '.')|
  {
    var parts := Split(ip, '.');
    var masks := Split(mask, '.');
    seq(|parts|, i requires 0 <= i < |parts| => BroadcastOctet(masks, i, parts[i]))
  }

  /** `getBroadcastAddress(ipAddress, netMask)`. */
  function GetBroadcastAddress(ip: string, mask: string): string {
    JoinNumbers(BroadcastOctets(ip, mask), '.')
  }

  /** The broadcast address has one octet per octet of the address, and splitting it gives
      back the octets' texts. */
  lemma BroadcastPieces(ip: string, mask: string)
    ensures var o := BroadcastOctets(ip, mask);
      Split(GetBroadcastAddress(ip, mask), '.') == seq(|o|, i requires 0 <= i < |o| => IntToString(o[i])) &&
      |Split(GetBroadcastAddress(ip, mask), '.')| == |Split(ip, '.')|
  {
    SplitJoinNumbers(BroadcastOctets(ip, mask), '.');
  }

  /** A mask octet written in decimal is read back as its value. */
  lemma MaskOctetOf(masks: seq<string>, i: nat, m: int)
    requires i < |masks| && masks[i] == IntToString(m)
    ensures MaskOctet(masks, i) == m
  {
    NumberOfString(m);
  }

  /** Octet i of the broadcast address is the address octet with every bit set that the
      mask octet leaves clear. */
  lemma OctetOf(masks: seq<string>, i: nat, e: string, m: int, b: int)
    requires 0 <= m < 256 && MaskOctet(masks, i) == m && ParseInt(e, 0) == Some(b)
    ensures BroadcastOctet(masks, i, e) == Or(255 - m, b)
  {
    ByteAndNotByte(m);
    assert BroadcastOctet(masks, i, e) == Or(AndNot(0xff, m), b);
  }

  /** For decimal octets, octet i of the broadcast address is the address octet with every
      bit the mask leaves clear set. */
  lemma OctetOfBytes(m: int, b: int)
    requires 0 <= m < 256 && 0 <= b < 256
    ensures BroadcastOctet([IntToString(m)], 0, IntToString(b)) == Or(255 - m, b)
  {
    MaskOctetOf([IntToString(m)], 0, m);
    ParseIntOfString(b);
    OctetOf([IntToString(m)], 0, IntToString(b), m, b);
  }

  /** A mask octet of 255 keeps the address octet; a mask octet of 0 makes it 255. */
  lemma OctetOfFullAndEmptyMask(b: int)
    requires 0 <= b < 256
    ensures BroadcastOctet([IntToString(255)], 0, IntToString(b)) == b
    ensures BroadcastOctet([IntToString(0)], 0, IntToString(b)) == 255
  {
    OctetOfBytes(255, b);
    OctetOfBytes(0, b);
    OrWithByte(b);
  }

  /** A mask octet that is missing acts as 0. */
  lemma OctetWithoutMask(b: int)
    requires 0 <= b < 256
    ensures BroadcastOctet([], 0, IntToString(b)) == 255
  {
    assert MaskOctet([], 0) == 0;
    ParseIntOfString(b);
    ByteAndNot(0);
    OrWithByte(b);
  }

  function Bytes(s: seq<int>): bool {
    forall i :: 0 <= i < |s| ==> 0 <= s[i] < 256
  }

  /** Each address octet with every bit set that its mask octet leaves clear. */
  function Masked(ips: seq<int>, masks: seq<int>): (r: seq<int>)
    requires |ips| == |masks|
    ensures |r| == |ips|
  {
    seq(|ips|, i requires 0 <= i < |ips| => Or(255 - masks[i], ips[i]))
  }

  /** The address and the mask written as dotted decimal octets: the octets of the broadcast
      address are the masked address octets. */
  lemma BroadcastOctetsOf(ips: seq<int>, masks: seq<int>)
    requires |ips| == |masks| >= 1 && Bytes(ips) && Bytes(masks)
    ensures BroadcastOctets(JoinNumbers(ips, '.'), JoinNumbers(masks, '.')) == Masked(ips, masks)
  {
    var o := BroadcastOctets(JoinNumbers(ips, '.'), JoinNumbers(masks, '.'));
    var w := Masked(ips, masks);
    SplitJoinNumbers(ips, '.');
    assert |o| == |w|;
    forall i | 0 <= i < |ips|
      ensures o[i] == w[i]
    {
      BroadcastOctetAt(ips, masks, i);
    }
  }

  /** Octet i of the broadcast address of dotted decimal octets. */
  lemma BroadcastOctetAt(ips: seq<int>, masks: seq<int>, i: nat)
    requires |ips| == |masks| >= 1 && Bytes(ips) && Bytes(masks) && i < |ips|
    ensures i < |BroadcastOctets(JoinNumbers(ips, '.'), JoinNumbers(masks, '.'))|
    ensures BroadcastOctets(JoinNumbers(ips, '.'), JoinNumbers(masks, '.'))[i] == Masked(ips, masks)[i]
  {
    var ip := JoinNumbers(ips, '.');
    var mask := JoinNumbers(masks, '.');
    SplitJoinNumbers(ips, '.');
    SplitJoinNumbers(masks, '.');
    var parts := Split(ip, '.');
    var ms := Split(mask, '.');
    assert parts[i] == IntToString(ips[i]) && ms[i] == IntToString(masks[i]);
    MaskOctetOf(ms, i, masks[i]);
    ParseIntOfString(ips[i]);
    OctetOf(ms, i, parts[i], masks[i], ips[i]);
    OctetsAt(ip, mask, i);
    MaskedAt(ips, masks, i);
  }

  lemma OctetsAt(ip: string, mask: string, i: nat)
    requires i < |Split(ip, '.')|
    ensures BroadcastOctets(ip, mask)[i] == BroadcastOctet(Split(mask, '.'), i, Split(ip, '.')[i])
  {
  }

  lemma MaskedAt(ips: seq<int>, masks: seq<int>, i: nat)
    requires |ips| == |masks| && i < |ips|
    ensures Masked(ips, masks)[i] == Or(255 - masks[i], ips[i])
  {
  }

  /** So the broadcast address is the dotted text of the masked octets. */
  lemma BroadcastOfOctets(ips: seq<int>, masks: seq<int>)
    requires |ips| == |masks| >= 1 && Bytes(ips) && Bytes(masks)
    ensures GetBroadcastAddress(JoinNumbers(ips, '.'), JoinNumbers(masks, '.')) ==
      JoinNumbers(Masked(ips, masks), '.')
  {
    BroadcastOctetsOf(ips, masks);
  }

  // ---------------------------------------------------------------- self MAC address

  /** The first interface whose address is the given one. */
  function FirstWithAddress(ifaces: seq<NetworkInterface>, ip: string): (r: Option<nat>)
    ensures r.Some? ==>
      r.value < |ifaces| && ifaces[r.value].address == ip &&
      forall j :: 0 <= j < r.value ==> ifaces[j].address != ip
    ensures r.None? ==> forall j :: 0 <= j < |ifaces| ==> ifaces[j].address != ip
    decreases |ifaces|
  {
    if |ifaces| == 0 then None
    else if ifaces[0].address == ip then Some(0)
    else
      var rest := FirstWithAddress(ifaces[1..], ip);
      if rest.Some? then Some(rest.value + 1) else None
  }

  /** `updateSelfMac(ipAddress)`'s choice: the MAC of the first interface with that address,
      else the MAC of the last interface, else all zeros. */
  function SelfMac(ip: string, ifaces: seq<NetworkInterface>): (r: string)
    ensures FirstWithAddress(ifaces, ip).Some? ==> r == ifaces[FirstWithAddress(ifaces, ip).value].mac
    ensures FirstWithAddress(ifaces, ip).None? && |ifaces| > 0 ==> r == ifaces[|ifaces| - 1].mac
    ensures |ifaces| == 0 ==> r == NO_MAC
  {
    var found := FirstWithAddress(ifaces, ip);
    if found.Some? then ifaces[found.value].mac
    else if |ifaces| > 0 then ifaces[|ifaces| - 1].mac
    else NO_MAC
  }

  // ---------------------------------------------------------------- the communicator

  class Communicator {
    /** `networkConfig`. */
    var config: NetworkConfig
    var broadcastIpAddress: string
    /** `_selfMacAddress`. */
    var selfMacAddress: string
    /** Every datagram sent, oldest first. */
    var outbox: seq<Datagram>

    /** `new NetworkCommunicator(networkConfig)`, with the host's interfaces given. */
    constructor (config: NetworkConfig, ifaces: seq<NetworkInterface>)
      ensures this.config == config && outbox == []
      ensures broadcastIpAddress == GetBroadcastAddress(config.networkIp, config.networkMask)
      ensures selfMacAddress == SelfMac(config.networkIp, ifaces)
    {
      this.config := config;
      broadcastIpAddress := GetBroadcastAddress(config.networkIp, config.networkMask);
      selfMacAddress := SelfMac(config.networkIp, ifaces);
      outbox := [];
    }

    /** `updateSelfMac(ipAddress)`, with the host's interfaces given. */
    method UpdateSelfMac(ip: string, ifaces: seq<NetworkInterface>)
      modifies this
      ensures selfMacAddress == SelfMac(ip, ifaces)
      ensures config == old(config) && broadcastIpAddress == old(broadcastIpAddress) && outbox == old(outbox)
    {
      selfMacAddress := SelfMac(ip, ifaces);
    }

    /** `boundNetworkInfo`: a copy of the configuration. */
    function BoundNetworkInfo(): NetworkConfig
      reads this
    {
      config
    }

    /** `send(data, ipAddress)`: the datagram joins the outbox. */
    method Send(data: seq<byte>, address: string)
      modifies this`outbox
      ensures outbox == old(outbox) + [Datagram(data, address)]
    {
      outbox := outbox + [Datagram(data, address)];
    }

    /** `sendBroadcast(data)`: a send to the broadcast address. */
    method SendBroadcast(data: seq<byte>)
      modifies this`outbox
      ensures outbox == old(outbox) + [Datagram(data, broadcastIpAddress)]
    {
      Send(data, broadcastIpAddress);
    }
  }
}
