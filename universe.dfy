/** packages/artnet-lib/core/universe: a universe is an ordered list of devices whose channel
    buffers, laid end to end, are the DMX data of one ArtDmx packet. */
module Universes {
  import opened Wrappers
  import opened Encoder
  import opened ArtNetPackets
  import opened JsNumbers
  import opened DmxPacket
  import opened Devices
  import opened ByteOrder

  /** The channel count a universe's devices must stay below. */
  const MAX_UNIVERSE_SIZE: int := 512

  // ---------------------------------------------------------------- sizes

  /** The channel counts of the devices, in order. */
  function Sizes(ds: seq<Generic>): seq<nat> {
    seq(|ds|, i requires 0 <= i < |ds| => ds[i].dmx.Length)
  }

  /** `reduce((acc, size) => acc + size, 0)`. */
  function Sum(s: seq<nat>): nat
    decreases |s|
  {
    if |s| == 0 then 0 else Sum(s[..|s| - 1]) + s[|s| - 1]
  }

  lemma SumAppend(s: seq<nat>, x: nat)
    ensures Sum(s + [x]) == Sum(s) + x
  {
    assert (s + [x])[..|s|] == s;
  }

  /** Replacing one size changes the sum by the difference. */
  lemma {:induction false} SumReplace(s: seq<nat>, i: nat, x: nat)
    requires i < |s|
    ensures Sum(s[i := x]) == Sum(s) - s[i] + x
    decreases |s|
  {
    var t := s[i := x];
    if i < |s| - 1 {
      SumReplace(s[..|s| - 1], i, x);
      assert t[..|t| - 1] == s[..|s| - 1][i := x];
    } else {
      assert t[..|t| - 1] == s[..|s| - 1];
    }
  }

  /** `calcSize(device, index)` as written: the universe's size less the size of the device
      at `index`, plus the new device's size. The guard `index && ...` skips the subtraction
      for index 0, and reading a device that is not there throws a TypeError. */
  function CalcSize(sizes: seq<nat>, n: nat, index: Option<int>): (r: Result<int>)
    ensures r.Err? <==> index.Some? && index.value != 0 && !(0 <= index.value < |sizes|)
    ensures r.Err? ==> r.error == TypeError
    ensures r.Ok? && (index == None || index == Some(0)) ==> r.value == Sum(sizes) + n
    ensures r.Ok? && index.Some? && index.value != 0 ==> r.value == Sum(sizes[index.value := n])
  {
    if index.None? || index.value == 0 then Ok(Sum(sizes) + n)
    else if 0 <= index.value < |sizes| then
      SumReplace(sizes, index.value, n);
      Ok(Sum(sizes) - sizes[index.value] + n)
    else Err(TypeError)
  }

  /** Replacing the device at index 0 keeps the size of the device it replaces in the count. */
  lemma CalcSizeAtZero()
    ensures CalcSize([500], 500, Some(0)) == Ok(1000)
    ensures Sum([500][0 := 500]) == 500
  {
    assert [500][..0] == [];
    assert [500][0 := 500] == [500];
  }

  /** The size `calcSize` evidently means: the device at any index in range, 0 included, is
      the one replaced. */
  function CalcSizeFixed(sizes: seq<nat>, n: nat, index: Option<int>): (r: Result<int>)
    ensures r.Err? <==> index.Some? && index.value != 0 && !(0 <= index.value < |sizes|)
    ensures r.Ok? && index.Some? && 0 <= index.value < |sizes| ==> r.value == Sum(sizes[index.value := n])
    ensures r.Ok? && !(index.Some? && 0 <= index.value < |sizes|) ==> r.value == Sum(sizes + [n])
  {
    SumAppend(sizes, n);
    if index.Some? && 0 <= index.value < |sizes| then
      SumReplace(sizes, index.value, n);
      Ok(Sum(sizes) - sizes[index.value] + n)
    else if index.None? || index.value == 0 then Ok(Sum(sizes) + n)
    else Err(TypeError)
  }

  /** `add`'s test as written: the new total must stay below 512, so a universe never holds
      512 channels, and a device of the default 512 channels fits in no universe. */
  lemma FullUniverseRejected()
    ensures CalcSize([], DEFAULT_CHANNELS, None) == Ok(MAX_UNIVERSE_SIZE)
    ensures CalcSize([256], 256, None) == Ok(MAX_UNIVERSE_SIZE)
  {
    assert [256][..0] == [];
  }

  /** The test `add` evidently means: the devices fit the 512 slots of one ArtDmx frame. */
  predicate Admits(sizes: seq<nat>, n: nat) {
    Sum(sizes) + n <= MAX_UNIVERSE_SIZE
  }

  lemma AdmitsFrame(sizes: seq<nat>, n: nat)
    ensures Admits(sizes, n) <==> Sum(sizes + [n]) <= DMX_CHANNEL_MAX
    ensures Admits([], DEFAULT_CHANNELS)
  {
    SumAppend(sizes, n);
  }

  /** Where `setDevice` stores a device once the checks pass: index 0 of an empty list
      appends, any other index replaces. */
  function Placed(ds: seq<Generic>, index: int, d: Generic): (r: seq<Generic>)
    requires 0 <= index <= |ds|
    ensures |r| == if index == |ds| then |ds| + 1 else |ds|
    ensures r[index] == d && forall j :: 0 <= j < |ds| && j != index ==> r[j] == ds[j]
  {
    if index == |ds| then ds + [d] else ds[index := d]
  }

  // ---------------------------------------------------------------- the frame

  /** `devices.reduce((acc, device) => acc.concat(device.getDmxData()), [])`. */
  function DeviceData(ds: seq<Generic>): seq<int>
    reads set i | 0 <= i < |ds| :: ds[i].dmx
    decreases |ds|
  {
    if |ds| == 0 then [] else DeviceData(ds[..|ds| - 1]) + ds[|ds| - 1].dmx[..]
  }

  lemma {:induction false} DeviceDataLength(ds: seq<Generic>)
    ensures |DeviceData(ds)| == Sum(Sizes(ds))
    decreases |ds|
  {
    if |ds| > 0 {
      DeviceDataLength(ds[..|ds| - 1]);
      assert Sizes(ds)[..|ds| - 1] == Sizes(ds[..|ds| - 1]);
    }
  }

  /** The devices' channels lie end to end: channel j of device k is channel
      `Sum(sizes of the devices before k) + j` of the universe. */
  lemma {:induction false} DeviceDataAt(ds: seq<Generic>, k: nat, j: nat)
    requires k < |ds| && j < ds[k].dmx.Length
    ensures Sum(Sizes(ds)[..k]) + j < |DeviceData(ds)|
    ensures DeviceData(ds)[Sum(Sizes(ds)[..k]) + j] == ds[k].dmx[j]
    decreases |ds|
  {
    var front := ds[..|ds| - 1];
    var last := ds[|ds| - 1];
    var whole := DeviceData(ds);
    assert whole == DeviceData(front) + last.dmx[..];
    DeviceDataLength(front);
    if k < |ds| - 1 {
      DeviceDataAt(front, k, j);
      assert Sizes(ds)[..k] == Sizes(front)[..k];
    } else {
      assert Sizes(ds)[..k] == Sizes(front);
      assert whole[|DeviceData(front)| + j] == last.dmx[..][j];
    }
  }

  /** `buildDmxData` on a packet: `setChannels` with the devices' levels (a throw ends the
      build), `incSequence`, `encode`. Gives the result and the packet's new payload. */
  function Frame(p: Payload<Key>, count: nat, data: seq<int>): (Result<seq<byte>>, Payload<Key>)
    requires Complete(p)
  {
    if forall i :: 0 <= i < |data| ==> ClampChannels(data)[i] <= p[Length].n then
      var q := p[DmxData := Arr(ClampChannels(data))];
      var next := q[Sequence := Num(SequenceAfterInc(q[Sequence].n))];
      (Encoded(next, Layout(DmxSchema(count))), next)
    else (Err(ChannelAboveLength), p)
  }

  /** Levels in 0..255 pass the packet's channel check whenever its `length` is at least
      255: the frame carries the levels unchanged and a sequence below 255 stays as it was. */
  lemma FrameKeepsLevels(p: Payload<Key>, count: nat, data: seq<int>)
    requires Complete(p) && p[Length].n >= LEVEL_MAX && p[Sequence].n < 255
    requires forall i :: 0 <= i < |data| ==> 0 <= data[i] <= LEVEL_MAX
    ensures Frame(p, count, data).1 == p[DmxData := Arr(data)]
    ensures Frame(p, count, data).0 == Encoded(p[DmxData := Arr(data)], Layout(DmxSchema(count)))
  {
    assert ClampChannels(data) == data;
    var q := p[DmxData := Arr(data)];
    assert q[Sequence := Num(SequenceAfterInc(q[Sequence].n))] == q;
  }

  /** A level above the packet's `length` makes the build throw and leaves the packet as it
      was. */
  lemma FrameRejects(p: Payload<Key>, count: nat, data: seq<int>, i: nat)
    requires Complete(p) && 0 <= p[Length].n < DMX_CHANNEL_MAX
    requires i < |data| && data[i] > p[Length].n
    ensures Frame(p, count, data) == (Err(ChannelAboveLength), p)
  {
    assert ClampChannels(data)[i] > p[Length].n;
  }

  // ---------------------------------------------------------------- addressing

  /** The sub-net byte `update` stores: the sub-net shifted over the universe nibble. A
      `swOut[port]` past the end of the array is `undefined`, so the whole sum is NaN, which
      the packet writes, shifts and masks as 0. */
  function PackedSubNet(subnet: int, u: Option<int>): int {
    if u.Some? then ShiftLeft(subnet, 4) + u.value else 0
  }

  /** The payload after `update(net, subnet, universe)`. */
  function Addressed(p: Payload<Key>, net: int, subnet: int, u: Option<int>): Payload<Key> {
    p[Net := Num(net)][SubNet := Num(PackedSubNet(subnet, u))]
  }

  /** `getPortAddressInfo` on a payload: the net, and the sub-net and universe nibbles. */
  function AddressInfo(p: Payload<Key>): (int, int, int)
    requires Complete(p)
  {
    (p[Net].n, ShiftRight(p[SubNet].n, 4), And(p[SubNet].n, 0xf))
  }

  /** A sub-net that survives the 32-bit shift and a universe nibble, or no universe. */
  predicate AddressFits(subnet: int, u: Option<int>) {
    u.Some? ==> 0 <= subnet < 0x800_0000 && 0 <= u.value < 16
  }

  /** What `getPortAddressInfo` should read back after `update`: the net, sub-net and
      universe given, or the net alone with sub-net and universe 0 when the universe is
      missing. */
  function StoredAddress(net: int, subnet: int, u: Option<int>): (int, int, int) {
    if u.Some? then (net, subnet, u.value) else (net, 0, 0)
  }

  /** `getPortAddressInfo` reads back what `update` stored, for an address that fits; a
      missing universe loses the sub-net too. */
  lemma AddressRoundTrip(p: Payload<Key>, net: int, subnet: int, u: Option<int>)
    requires Complete(p) && AddressFits(subnet, u)
    ensures Complete(Addressed(p, net, subnet, u))
    ensures AddressInfo(Addressed(p, net, subnet, u)) == StoredAddress(net, subnet, u)
  {
    if u.Some? {
      NibblePacking(subnet, u.value);
    } else {
      NibblePacking(0, 0);
    }
    var q := Addressed(p, net, subnet, u);
    assert q[Net] == Num(net) && q[SubNet] == Num(PackedSubNet(subnet, u));
  }

  /** A second `update` overwrites the first: only the latest address stays. */
  lemma AddressedOverwrites(p: Payload<Key>, net: int, subnet: int, u: Option<int>, net2: int, subnet2: int, u2: Option<int>)
    ensures Addressed(Addressed(p, net, subnet, u), net2, subnet2, u2) == Addressed(p, net2, subnet2, u2)
  {
    var a := Addressed(Addressed(p, net, subnet, u), net2, subnet2, u2);
    var b := Addressed(p, net2, subnet2, u2);
    assert a.Keys == b.Keys;
    forall k | k in a.Keys
      ensures a[k] == b[k]
    {
    }
  }

  /** A universe number of 16 or more carries into the sub-net nibble. */
  lemma UniverseCarries(p: Payload<Key>, net: int)
    requires Complete(p)
    ensures Complete(Addressed(p, net, 1, Some(16)))
    ensures AddressInfo(Addressed(p, net, 1, Some(16))) == (net, 2, 0)
  {
    NibblePacking(1, 0);
    NibblePacking(2, 0);
    assert PackedSubNet(1, Some(16)) == ShiftLeft(2, 4) + 0;
    var q := Addressed(p, net, 1, Some(16));
    assert q[Net] == Num(net) && q[SubNet] == Num(ShiftLeft(2, 4) + 0);
  }

  // ---------------------------------------------------------------- names

  /** `devices.filter(device => device.getName() === name)`. */
  function Named(ds: seq<Generic>, name: string): seq<Generic>
    decreases |ds|
  {
    if |ds| == 0 then []
    else (if ds[0].GetName() == name then [ds[0]] else []) + Named(ds[1..], name)
  }

  /** Every device is a `Generic`: asking for "Generic" gives them all, in order, and any
      other name none. */
  lemma {:induction false} NamedGeneric(ds: seq<Generic>, name: string)
    ensures name == "Generic" ==> Named(ds, name) == ds
    ensures name != "Generic" ==> Named(ds, name) == []
    decreases |ds|
  {
    if |ds| > 0 {
      NamedGeneric(ds[1..], name);
      assert [ds[0]] + ds[1..] == ds;
    }
  }

  // ---------------------------------------------------------------- the universe

  class Universe {
    var devices: seq<Generic>
    /** `controlPacket`. */
    const packet: Dmx
    var name: string

    ghost predicate Valid()
      reads this, packet, packet.schema
    {
      packet.Valid()
    }

    /** `new Universe(name, controlPacket?, maxDMXLength = 512)`: without a packet, an
        ArtDmx of `maxDMXLength` channels. */
    constructor (name: string, control: Dmx?, maxLength: int)
      requires control != null ==> control.Valid()
      requires control == null ==> ArrayLength(maxLength)
      ensures Valid() && this.name == name && devices == []
      ensures control != null ==> packet == control
      ensures control == null ==>
        fresh(packet) && packet.count == maxLength && packet.payload == DmxPayload(map[Length := Num(maxLength)])
    {
      if control != null {
        packet := control;
      } else {
        assert LengthOf(map[Length := Num(maxLength)]) == maxLength;
        packet := new Dmx(map[Length := Num(maxLength)]);
      }
      this.name := name;
      devices := [];
    }

    /** `getSize`: the channels of all devices together. */
    function GetSize(): nat
      reads this
    {
      Sum(Sizes(devices))
    }

    /** `add`: appends the device and gives its index, unless the universe would reach 512
        channels. */
    method Add(device: Generic) returns (r: Result<int>)
      modifies this
      ensures name == old(name)
      ensures Sum(Sizes(old(devices))) + device.dmx.Length >= MAX_UNIVERSE_SIZE ==>
        r == Err(LibError(UniverseMaxSizeReached)) && unchanged(this)
      ensures Sum(Sizes(old(devices))) + device.dmx.Length < MAX_UNIVERSE_SIZE ==>
        r == Ok(|old(devices)|) && devices == old(devices) + [device]
      ensures r.Ok? ==> GetSize() < MAX_UNIVERSE_SIZE && devices[r.value] == device
    {
      var size := CalcSize(Sizes(devices), device.dmx.Length, None);
      if size.value >= MAX_UNIVERSE_SIZE {
        return Err(LibError(UniverseMaxSizeReached));
      }
      assert Sizes(devices + [device]) == Sizes(devices) + [device.dmx.Length];
      SumAppend(Sizes(devices), device.dmx.Length);
      devices := devices + [device];
      r := Ok(|devices| - 1);
    }

    /** `setDevice(device, index)`: stores the device at `index` unless `calcSize` throws
        or reaches 512 channels. */
    method SetDevice(device: Generic, index: int) returns (r: Outcome)
      modifies this
      ensures name == old(name)
      ensures var c := CalcSize(Sizes(old(devices)), device.dmx.Length, Some(index));
        (c.Err? ==> r == Fail(TypeError) && unchanged(this)) &&
        (c.Ok? && c.value >= MAX_UNIVERSE_SIZE ==> r == Fail(LibError(UniverseMaxSizeReached)) && unchanged(this)) &&
        (c.Ok? && c.value < MAX_UNIVERSE_SIZE ==>
          r == Pass && 0 <= index <= |old(devices)| && devices == Placed(old(devices), index, device))
      ensures r.Pass? && index != 0 ==> GetSize() < MAX_UNIVERSE_SIZE
    {
      var size := CalcSize(Sizes(devices), device.dmx.Length, Some(index));
      if size.Err? {
        return Fail(size.error);
      }
      if size.value >= MAX_UNIVERSE_SIZE {
        return Fail(LibError(UniverseMaxSizeReached));
      }
      if index != 0 {
        assert Sizes(devices[index := device]) == Sizes(devices)[index := device.dmx.Length];
      }
      devices := Placed(devices, index, device);
      r := Pass;
    }

    /** `update(net, subnet, universe)`: the net, and the sub-net shifted over the
        universe nibble. */
    method Update(net: int, subnet: int, universe: Option<int>)
      requires Valid()
      modifies packet
      ensures Valid() && packet.payload == Addressed(old(packet.payload), net, subnet, universe)
      ensures AddressFits(subnet, universe) ==> GetPortAddressInfo() == StoredAddress(net, subnet, universe)
    {
      ghost var p := packet.payload;
      packet.SetNet(net);
      packet.SetSubnet(PackedSubNet(subnet, universe));
      if AddressFits(subnet, universe) {
        AddressRoundTrip(p, net, subnet, universe);
      }
    }

    /** `getPortAddressInfo`. */
    function GetPortAddressInfo(): (int, int, int)
      reads this, packet
      requires Complete(packet.payload)
    {
      AddressInfo(packet.payload)
    }

    /** `buildDmxData`: the devices' levels end to end go into the packet, which is then
        encoded. */
    method BuildDmxData() returns (r: Result<seq<byte>>)
      requires Valid()
      modifies packet
      ensures Valid()
      ensures (r, packet.payload) == Frame(old(packet.payload), packet.count, DeviceData(devices))
    {
      var data := DeviceData(devices);
      var written := packet.SetChannels(data);
      if written.Fail? {
        return Err(written.error);
      }
      var _ := packet.IncSequence();
      r := packet.Encode();
    }

    /** `getRegisteredDevices`: each device's index and name. */
    function GetRegisteredDevices(): (r: seq<(nat, string)>)
      reads this
      ensures |r| == |devices| && forall i :: 0 <= i < |r| ==> r[i] == (i, "Generic")
    {
      var ds := devices;
      seq(|ds|, i requires 0 <= i < |ds| => (i as nat, ds[i].GetName()))
    }

    /** `getDevice(index)`: the device there, or null. */
    function GetDevice(index: int): (r: Option<Generic>)
      reads this
      ensures r.Some? <==> 0 <= index < |devices|
      ensures r.Some? ==> r.value == devices[index]
    {
      if 0 <= index < |devices| then Some(devices[index]) else None
    }

    /** `getDevice(name)`: the devices of that class. */
    function GetDevicesByName(name: string): seq<Generic>
      reads this
    {
      Named(devices, name)
    }
  }
}
