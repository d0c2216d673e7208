/** packages/artnet-lib/core/art-net.ts: the library's entry point. It owns the communicator,
    the node registry and discovery, and keeps the universes by name; devices are created
    for universes, actions are applied to them, and universes are attached to node ports. */
module ArtNets {
  import opened Wrappers
  import Schemas
  import OrderedMaps
  import opened ArtNetPackets
  import opened JsArrays
  import opened DmxPacket
  import opened Devices
  import opened Universes
  import opened Nodes
  import opened NodeManagers
  import opened Communicators
  import opened Discoveries

  /** `{deviceDriver, numChannels}`: the `Generic` driver, with 512 channels unless a count
      is given. */
  datatype DeviceArgs = DeviceArgs(numChannels: Option<nat>)

  function ChannelCount(a: DeviceArgs): nat {
    if a.numChannels.Some? then a.numChannels.value else 512
  }

  function ChannelCounts(args: seq<DeviceArgs>): (r: seq<nat>)
    ensures |r| == |args| && forall i :: 0 <= i < |args| ==> r[i] == ChannelCount(args[i])
  {
    seq(|args|, i requires 0 <= i < |args| => ChannelCount(args[i]))
  }

  /** `UniverseAction`: a `Group` action goes to every device of a class in the universe,
      an `Exact` one to the device at an index. */
  datatype UniverseAction =
    | Group(universeName: string, deviceGroup: string, action: Action)
    | Exact(universeName: string, deviceIndex: int, action: Action)

  // ---------------------------------------------------------------- sums of channel counts

  /** A device list's channel count only grows as devices are added. */
  lemma {:induction false} SumPrefix(s: seq<nat>, k: nat)
    requires k <= |s|
    ensures Sum(s[..k]) <= Sum(s)
    decreases |s|
  {
    if k < |s| {
      SumPrefix(s[..|s| - 1], k);
      assert s[..|s| - 1][..k] == s[..k];
      assert Sum(s) == Sum(s[..|s| - 1]) + s[|s| - 1];
    } else {
      assert s[..k] == s;
    }
  }

  // ---------------------------------------------------------------- the universe list

  ghost function Registered(us: seq<Universe>): set<Universe> {
    set i | 0 <= i < |us| :: us[i]
  }

  ghost function PacketsOf(us: seq<Universe>): set<Dmx> {
    set i | 0 <= i < |us| :: us[i].packet
  }

  ghost function SchemasOf(us: seq<Universe>): set<Schemas.Schema<Key>> {
    set i | 0 <= i < |us| :: us[i].packet.schema
  }

  /** Every universe is valid and its devices own their buffers. */
  ghost predicate UniversesValid(us: seq<Universe>)
    reads Registered(us), PacketsOf(us), SchemasOf(us)
  {
    forall i :: 0 <= i < |us| ==> us[i].Valid() && OwnBuffers(us[i].devices)
  }

  /** A list of universes drawn from a valid one is valid. */
  lemma UniversesValidWithin(us: seq<Universe>, vs: seq<Universe>)
    requires UniversesValid(us) && forall v :: v in vs ==> v in us
    ensures UniversesValid(vs)
  {
    forall i | 0 <= i < |vs|
      ensures vs[i].Valid() && OwnBuffers(vs[i].devices)
    {
      assert vs[i] in vs;
      var j :| 0 <= j < |us| && us[j] == vs[i];
    }
  }

  /** `findIndex(u => u.name === name)` from position k on, -1 becoming None. */
  function NameIndexFrom(us: seq<Universe>, name: string, k: nat): (r: Option<nat>)
    reads Registered(us)`name
    requires k <= |us|
    ensures r.Some? ==> k <= r.value < |us| && us[r.value].name == name
    ensures r.Some? ==> forall j :: k <= j < r.value ==> us[j].name != name
    ensures r.None? ==> forall j :: k <= j < |us| ==> us[j].name != name
    decreases |us| - k
  {
    if k == |us| then None
    else if us[k].name == name then Some(k)
    else NameIndexFrom(us, name, k + 1)
  }

  function NameIndex(us: seq<Universe>, name: string): Option<nat>
    reads Registered(us)`name
  {
    NameIndexFrom(us, name, 0)
  }

  /** No two universes share a name. */
  ghost predicate UniqueNames(us: seq<Universe>)
    reads Registered(us)`name
  {
    forall i, j :: 0 <= i < j < |us| ==> us[i].name != us[j].name
  }

  lemma UniqueNamesSnoc(us: seq<Universe>, u: Universe)
    requires UniqueNames(us) && forall i :: 0 <= i < |us| ==> us[i].name != u.name
    ensures UniqueNames(us + [u])
  {
    var t := us + [u];
    assert forall i :: 0 <= i < |us| ==> t[i] == us[i];
  }

  /** A universe whose devices own their channel buffers: no two share one. */
  ghost predicate OwnBuffers(ds: seq<Generic>) {
    forall i, j :: 0 <= i < j < |ds| ==> ds[i].dmx != ds[j].dmx
  }

  /** The universe at a position, `undefined` (None) outside the list. */
  function At(us: seq<Universe>, i: int): (r: Option<Universe>)
    ensures r.Some? <==> 0 <= i < |us|
  {
    if 0 <= i < |us| then Some(us[i]) else None
  }

  /** `findIndex(u => u.name === name)`: the first position of the name, or -1. */
  function FindIndex(us: seq<Universe>, name: string): (r: int)
    reads Registered(us)`name
    ensures r == -1 <==> forall j :: 0 <= j < |us| ==> us[j].name != name
    ensures r != -1 ==> 0 <= r < |us| && us[r].name == name
  {
    var k := NameIndex(us, name);
    if k.Some? then k.value else -1
  }

  /** Under unique names, a universe's name is found nowhere once it is cut out. */
  lemma CutName(us: seq<Universe>, i: nat)
    requires UniqueNames(us) && i < |us|
    ensures UniqueNames(us[..i] + us[i + 1..])
    ensures forall v :: v in us[..i] + us[i + 1..] ==> v in us && v.name != us[i].name
  {
    var t := us[..i] + us[i + 1..];
    assert forall j :: 0 <= j < |t| ==> t[j] == (if j < i then us[j] else us[j + 1]);
  }

  // ---------------------------------------------------------------- actions over devices

  /** The channel levels of each device. */
  ghost function Contents(ds: seq<Generic>): (r: seq<seq<int>>)
    reads BuffersOf(ds)
    ensures |r| == |ds| && forall j :: 0 <= j < |ds| ==> r[j] == ds[j].dmx[..]
  {
    seq(|ds|, j reads set j | 0 <= j < |ds| :: ds[j].dmx requires 0 <= j < |ds| => ds[j].dmx[..])
  }

  /** The devices' channel buffers. */
  ghost function BuffersOf(ds: seq<Generic>): set<array<int>> {
    set j | 0 <= j < |ds| :: ds[j].dmx
  }

  /** `getDevice(deviceGroup).forEach(device => device.setAction(action))` on the devices'
      levels from the k-th device on: each gets the action in turn, and the first that
      throws stops the rest. */
  function ApplyFrom(datas: seq<seq<int>>, a: Action, k: nat): (r: (Outcome, seq<seq<int>>))
    requires k <= |datas|
    decreases |datas| - k
  {
    if k == |datas| then (Pass, datas)
    else
      var step := ActionApplied(datas[k], a);
      if step.0.Fail? then (step.0, datas[k := step.1]) else ApplyFrom(datas[k := step.1], a, k + 1)
  }

  /** An action the API schema rejects is rejected by the first device, and no levels
      change. */
  lemma ApplyInvalid(datas: seq<seq<int>>, a: Action, k: nat)
    requires k < |datas| && !WellFormed(a)
    ensures ApplyFrom(datas, a, k) == (Fail(Invalid(Issues(a))), datas)
  {
    assert datas[k := datas[k]] == datas;
  }

  /** When no device throws, every device from the k-th on holds the action's result and
      the ones before are as they were. */
  lemma {:induction false} ApplyPassed(datas: seq<seq<int>>, a: Action, k: nat)
    requires k <= |datas| && ApplyFrom(datas, a, k).0.Pass?
    ensures |ApplyFrom(datas, a, k).1| == |datas|
    ensures forall j :: k <= j < |datas| ==>
      ActionApplied(datas[j], a).0.Pass? && ApplyFrom(datas, a, k).1[j] == ActionApplied(datas[j], a).1
    ensures forall j :: 0 <= j < k ==> ApplyFrom(datas, a, k).1[j] == datas[j]
    decreases |datas| - k
  {
    if k < |datas| {
      var step := ActionApplied(datas[k], a);
      var next := datas[k := step.1];
      assert step.0.Pass? && ApplyFrom(datas, a, k) == ApplyFrom(next, a, k + 1);
      ApplyPassed(next, a, k + 1);
      assert forall j :: k < j < |datas| ==> next[j] == datas[j];
    }
  }

  // ---------------------------------------------------------------- the library

  class ArtNet {
    var universes: seq<Universe>
    const communicator: Communicator
    const nodeManager: NodeManager
    const discovery: Discovery

    ghost function Packets(): set<Dmx>
      reads this
    {
      PacketsOf(universes)
    }

    ghost function PacketSchemas(): set<Schemas.Schema<Key>>
      reads this
    {
      SchemasOf(universes)
    }

    /** The channel buffers of all devices of all universes. */
    ghost function Buffers(): set<array<int>>
      reads this, Registered(universes)`devices
    {
      set i, j | 0 <= i < |universes| && 0 <= j < |universes[i].devices| :: universes[i].devices[j].dmx
    }

    ghost predicate Valid()
      reads this, Registered(universes), Packets(), PacketSchemas(), nodeManager`nodes
      reads nodeManager.Repr()`reply, nodeManager.Repr()`ports
    {
      discovery.nodeManager == nodeManager && discovery.communicator == communicator &&
      nodeManager.Valid() && UniqueNames(universes) && UniversesValid(universes)
    }

    /** `new ArtNetImpl(opts)`: a communicator on the given network, a node registry on it
        and discovery over both, replying to ArtPolls when `sendReply` says so; no
        universes. */
    constructor (config: NetworkConfig, ifaces: seq<NetworkInterface>, sendReply: Option<bool>)
      ensures Valid() && universes == [] && fresh(communicator) && fresh(nodeManager) && fresh(discovery)
      ensures communicator.config == config && communicator.outbox == []
      ensures nodeManager.nodes == [] && nodeManager.events == [] && nodeManager.communicator == communicator
      ensures discovery.sendArtPollReply == (sendReply == Some(true)) && !discovery.isActive
    {
      var c := new Communicator(config, ifaces);
      var m := new NodeManager(c);
      discovery := new Discovery(m, c, sendReply == Some(true));
      communicator := c;
      nodeManager := m;
      universes := [];
    }

    /** `isUniverseExist(name)`. */
    function IsUniverseExist(name: string): (r: bool)
      reads this, Registered(universes)`name
      ensures r <==> exists i :: 0 <= i < |universes| && universes[i].name == name
    {
      NameIndex(universes, name).Some?
    }

    /** `getUniverseByName(name)`: the first universe of that name, or null. */
    function GetUniverseByName(name: string): (r: Option<Universe>)
      reads this, Registered(universes)`name
      ensures r.Some? <==> IsUniverseExist(name)
      ensures r.Some? ==> r.value in universes && r.value.name == name
    {
      var k := NameIndex(universes, name);
      if k.Some? then Some(universes[k.value]) else None
    }

    /** With names unique, the universe found is the one of that name. */
    lemma GetUniverseByNameUnique(name: string, i: nat)
      requires UniqueNames(universes) && i < |universes| && universes[i].name == name
      ensures GetUniverseByName(name) == Some(universes[i])
      ensures NameIndex(universes, name) == Some(i)
    {
    }

    /** `createDevices(devices)`: a fresh device for each description, with its channel
        count, all channels 0, no two sharing a buffer. */
    static method CreateDevices(args: seq<DeviceArgs>) returns (ds: seq<Generic>)
      ensures |ds| == |args| && OwnBuffers(ds) && Sizes(ds) == ChannelCounts(args)
      ensures forall i :: 0 <= i < |ds| ==> fresh(ds[i]) && fresh(ds[i].dmx)
      ensures forall i :: 0 <= i < |ds| ==> ds[i].GetDmxData() == seq(ChannelCount(args[i]), _ => 0)
    {
      ds := [];
      for i := 0 to |args|
        invariant |ds| == i && OwnBuffers(ds)
        invariant forall j :: 0 <= j < i ==> fresh(ds[j]) && fresh(ds[j].dmx)
        invariant forall j :: 0 <= j < i ==> ds[j].dmx.Length == ChannelCount(args[j])
        invariant forall j :: 0 <= j < i ==> ds[j].GetDmxData() == seq(ChannelCount(args[j]), _ => 0)
      {
        var d := new Generic(ChannelCount(args[i]));
        assert d.GetDmxData() == seq(ChannelCount(args[i]), _ => 0);
        ds := ds + [d];
      }
      assert Sizes(ds) == ChannelCounts(args);
    }

    /** `universes.push(universe)` for a valid universe of a new name. */
    method Register(u: Universe)
      requires Valid() && u.Valid() && OwnBuffers(u.devices) && !IsUniverseExist(u.name)
      modifies this`universes
      ensures Valid() && universes == old(universes) + [u]
    {
      UniqueNamesSnoc(universes, u);
      universes := universes + [u];
    }

    /** `devices.forEach(device => universe.add(device))` on a new universe: every device
        is added in order, unless together they reach 512 channels, when `add` throws. */
    static method AddAll(u: Universe, created: seq<Generic>) returns (r: Outcome)
      requires u.devices == []
      modifies u
      ensures u.name == old(u.name) && (u.Valid() <==> old(u.Valid()))
      ensures r.Pass? <==> Sum(Sizes(created)) < MAX_UNIVERSE_SIZE
      ensures r.Fail? ==> r.error == LibError(UniverseMaxSizeReached)
      ensures r.Pass? ==> u.devices == created
    {
      for i := 0 to |created|
        invariant u.name == old(u.name) && (u.Valid() <==> old(u.Valid()))
        invariant u.devices == created[..i] && Sum(Sizes(u.devices)) < MAX_UNIVERSE_SIZE
      {
        var added := u.Add(created[i]);
        assert Sizes(created[..i + 1]) == Sizes(created[..i]) + [created[i].dmx.Length];
        SumAppend(Sizes(created[..i]), created[i].dmx.Length);
        if added.Err? {
          SumPrefix(Sizes(created), i + 1);
          assert Sizes(created)[..i + 1] == Sizes(created[..i + 1]);
          return Fail(added.error);
        }
        assert created[..i] + [created[i]] == created[..i + 1];
      }
      assert created[..|created|] == created;
      r := Pass;
    }

    /** `new Universe(name)` with the devices described added: a fresh universe of 512
        channels, or the error `add` throws once the devices reach 512 channels. */
    static method NewUniverse(name: string, devices: Option<seq<DeviceArgs>>) returns (r: Result<Universe>)
      ensures var counts := if devices.Some? then ChannelCounts(devices.value) else [];
        (r.Err? <==> Sum(counts) >= MAX_UNIVERSE_SIZE) &&
        (r.Err? ==> r.error == LibError(UniverseMaxSizeReached)) &&
        (r.Ok? ==> (
           fresh(r.value) && r.value.Valid() && OwnBuffers(r.value.devices) &&
           r.value.name == name && Sizes(r.value.devices) == counts))
    {
      var u := new Universe(name, null, 512);
      if devices.Some? {
        var created := CreateDevices(devices.value);
        var added := AddAll(u, created);
        if added.Fail? {
          return Err(added.error);
        }
      } else {
        assert Sum(Sizes([])) == 0;
      }
      r := Ok(u);
    }

    /** `createUniverse(name, devices?)`: null when the name is taken; otherwise a new
        universe of 512 channels gets the devices in order and joins the list. Adding
        throws once the devices reach 512 channels together, and the universe is then not
        registered. */
    method CreateUniverse(name: string, devices: Option<seq<DeviceArgs>>) returns (r: Result<Option<Universe>>)
      requires Valid()
      modifies this`universes
      ensures Valid()
      ensures old(IsUniverseExist(name)) ==> r == Ok(None) && universes == old(universes)
      ensures var counts := if devices.Some? then ChannelCounts(devices.value) else [];
        !old(IsUniverseExist(name)) ==> (
          (Sum(counts) >= MAX_UNIVERSE_SIZE ==> r == Err(LibError(UniverseMaxSizeReached)) && universes == old(universes)) &&
          (Sum(counts) < MAX_UNIVERSE_SIZE ==>
            r.Ok? && r.value.Some? && fresh(r.value.value) && universes == old(universes) + [r.value.value] &&
            r.value.value.name == name && Sizes(r.value.value.devices) == counts))
    {
      if IsUniverseExist(name) {
        return Ok(None);
      }
      var u := NewUniverse(name, devices);
      if u.Err? {
        return Err(u.error);
      }
      Register(u.value);
      r := Ok(Some(u.value));
    }

    /** `addDevice(universeName, device)` as written: the guard is inverted, so a universe
        that exists gives null at once, and for one that does not the lookup after
        creating the device finds nothing. No device is ever added. */
    method AddDevice(universeName: string, args: DeviceArgs) returns (r: Result<Option<int>>)
      ensures r == Ok(None)
    {
      if IsUniverseExist(universeName) {
        return Ok(None);
      }
      var created := CreateDevices([args]);
      var u := GetUniverseByName(universeName);
      if u.Some? {
        assert false;
      }
      r := Ok(None);
    }

    /** `addDevice` with the guard the documentation describes: null when the universe
        does not exist, else the new device is added to it and its index returned; `add`
        throws when the universe would reach 512 channels. */
    method AddDeviceToUniverse(universeName: string, args: DeviceArgs) returns (r: Result<Option<int>>)
      requires Valid()
      modifies Registered(universes)
      ensures Valid() && universes == old(universes)
      ensures old(GetUniverseByName(universeName)).None? ==> r == Ok(None) && unchanged(Registered(universes))
      ensures old(GetUniverseByName(universeName)).Some? ==>
        var u := old(GetUniverseByName(universeName)).value;
        var n := |old(u.devices)|;
        (Sum(Sizes(old(u.devices))) + ChannelCount(args) >= MAX_UNIVERSE_SIZE ==>
          r == Err(LibError(UniverseMaxSizeReached)) && unchanged(Registered(universes))) &&
        (Sum(Sizes(old(u.devices))) + ChannelCount(args) < MAX_UNIVERSE_SIZE ==> (
           r == Ok(Some(n)) && |u.devices| == n + 1 && u.devices[..n] == old(u.devices) &&
           fresh(u.devices[n]) && u.devices[n].dmx.Length == ChannelCount(args) &&
           forall v :: v in universes && v != u ==> v.devices == old(v.devices)))
    {
      if !IsUniverseExist(universeName) {
        return Ok(None);
      }
      var created := CreateDevices([args]);
      var u := GetUniverseByName(universeName);
      var k := Add(u.value, created[0]);
      if k.Err? {
        return Err(k.error);
      }
      r := Ok(Some(k.value));
    }

    /** `universe.add(device)` on a registered universe, for a fresh device. */
    method Add(u: Universe, d: Generic) returns (r: Result<int>)
      requires Valid() && u in universes && d.dmx !in Buffers()
      modifies u
      ensures Valid() && u.name == old(u.name)
      ensures Sum(Sizes(old(u.devices))) + d.dmx.Length >= MAX_UNIVERSE_SIZE ==>
        r == Err(LibError(UniverseMaxSizeReached)) && unchanged(u)
      ensures Sum(Sizes(old(u.devices))) + d.dmx.Length < MAX_UNIVERSE_SIZE ==>
        r == Ok(|old(u.devices)|) && u.devices == old(u.devices) + [d]
    {
      r := u.Add(d);
      assert forall i :: 0 <= i < |universes| && universes[i] != u ==> universes[i].Valid() && OwnBuffers(universes[i].devices);
    }

    /** `setDevice(universeName, deviceIndex, device)`: null (false here) when no universe
        has the name; otherwise a new device goes to the index through the universe's
        `setDevice`, which can throw, and the call gives undefined (true here). */
    method SetDevice(universeName: string, index: int, args: DeviceArgs) returns (r: Result<bool>)
      requires Valid()
      modifies Registered(universes)
      ensures Valid() && universes == old(universes)
      ensures old(GetUniverseByName(universeName)).None? ==> r == Ok(false) && unchanged(Registered(universes))
      ensures old(GetUniverseByName(universeName)).Some? ==>
        var u := old(GetUniverseByName(universeName)).value;
        var c := CalcSize(Sizes(old(u.devices)), ChannelCount(args), Some(index));
        (c.Err? ==> r == Err(TypeError) && unchanged(Registered(universes))) &&
        (c.Ok? && c.value >= MAX_UNIVERSE_SIZE ==>
          r == Err(LibError(UniverseMaxSizeReached)) && unchanged(Registered(universes))) &&
        (c.Ok? && c.value < MAX_UNIVERSE_SIZE ==> (
           r == Ok(true) && 0 <= index <= |old(u.devices)| && index < |u.devices| &&
           u.devices == Placed(old(u.devices), index, u.devices[index]) &&
           fresh(u.devices[index]) && u.devices[index].dmx.Length == ChannelCount(args) &&
           forall v :: v in universes && v != u ==> v.devices == old(v.devices)))
    {
      var u := GetUniverseByName(universeName);
      var created := CreateDevices([args]);
      if u.None? {
        return Ok(false);
      }
      var placed := Place(u.value, created[0], index);
      if placed.Fail? {
        return Err(placed.error);
      }
      r := Ok(true);
    }

    /** `universe.setDevice(device, index)` on a registered universe, for a fresh device. */
    method Place(u: Universe, d: Generic, index: int) returns (r: Outcome)
      requires Valid() && u in universes && d.dmx !in Buffers()
      modifies u
      ensures Valid() && u.name == old(u.name)
      ensures var c := CalcSize(Sizes(old(u.devices)), d.dmx.Length, Some(index));
        (c.Err? ==> r == Fail(TypeError) && unchanged(u)) &&
        (c.Ok? && c.value >= MAX_UNIVERSE_SIZE ==> r == Fail(LibError(UniverseMaxSizeReached)) && unchanged(u)) &&
        (c.Ok? && c.value < MAX_UNIVERSE_SIZE ==>
          r == Pass && 0 <= index <= |old(u.devices)| && u.devices == Placed(old(u.devices), index, d))
    {
      r := u.SetDevice(d, index);
      assert forall i :: 0 <= i < |universes| && universes[i] != u ==> universes[i].Valid() && OwnBuffers(universes[i].devices);
    }

    /** `universes.splice(start, 1)`: at most one universe leaves the list. */
    method SpliceUniverse(start: int)
      requires Valid()
      modifies this`universes
      ensures Valid() && universes == Splice(old(universes), start, 1).0
    {
      var s := SpliceStart(|universes|, start);
      if s < |universes| {
        assert SpliceCount(|universes|, s, 1) == 1;
        CutName(universes, s);
      } else {
        assert universes[s..] == [] && universes[..s] == universes;
      }
      ghost var before := universes;
      universes := Splice(universes, start, 1).0;
      UniversesValidWithin(before, universes);
      assert unchanged(nodeManager, discovery) && unchanged(nodeManager.Repr());
    }

    /** `removeUniverse(name)` as written: the guard is inverted, so an existing name gives
        null and changes nothing, while for a missing one `findIndex` gives -1, the
        universe read there is undefined and `splice(-1, 1)` drops the last universe. */
    method RemoveUniverse(name: string) returns (r: Option<Universe>)
      requires Valid()
      modifies this`universes
      ensures Valid()
      ensures old(IsUniverseExist(name)) ==> r == None && universes == old(universes)
      ensures !old(IsUniverseExist(name)) ==>
        r == None && universes == (if old(universes) == [] then [] else old(universes[..|universes| - 1]))
    {
      if IsUniverseExist(name) {
        return None;
      }
      var idx := FindIndex(universes, name);
      r := At(universes, idx);
      if universes != [] {
        SpliceLast(universes);
      }
      SpliceUniverse(idx);
    }

    /** `removeUniverse` with the guard its documentation describes: null when no universe
        has the name, else that universe is spliced out and returned, and the name is then
        free. */
    method RemoveNamedUniverse(name: string) returns (r: Option<Universe>)
      requires Valid()
      modifies this`universes
      ensures Valid()
      ensures !old(IsUniverseExist(name)) ==> r == None && universes == old(universes)
      ensures old(IsUniverseExist(name)) ==>
        var i := old(FindIndex(universes, name));
        r == Some(old(universes[i])) && universes == old(universes[..i] + universes[i + 1..]) &&
        !IsUniverseExist(name)
    {
      if !IsUniverseExist(name) {
        return None;
      }
      var idx := FindIndex(universes, name);
      var u := universes[idx];
      SpliceAt(universes, idx);
      CutName(universes, idx);
      SpliceUniverse(idx);
      r := Some(u);
    }

    /** `attachUniverse(nodeMac, nodePort, universeName)`: null when the universe or the
        node is missing; otherwise the node addresses the universe and maps the port to
        it, throwing when the node has no such port. */
    method AttachUniverse(mac: string, port: int, universeName: string) returns (r: Result<Option<(Universe, Node)>>)
      requires Valid()
      modifies nodeManager.Repr(), Packets()
      ensures Valid() && universes == old(universes) && nodeManager.nodes == old(nodeManager.nodes)
      ensures var u := old(GetUniverseByName(universeName));
        var n := old(nodeManager.Found(ByMac(mac)));
        ((u.None? || n.None?) ==> r == Ok(None) && unchanged(nodeManager.Repr()) && unchanged(Packets())) &&
        (u.Some? && n.Some? ==> (
           var reply := old(n.value.reply);
           n.value.reply == reply &&
           (PortsCheck(reply, port).Fail? ==>
             r == Err(LibError(NodePortsLimit)) && n.value.ports == old(n.value.ports) &&
             u.value.packet.payload == old(u.value.packet.payload)) &&
           (PortsCheck(reply, port).Pass? ==>
             r == Ok(Some((u.value, n.value))) &&
             n.value.ports == OrderedMaps.Put(old(n.value.ports), port, u.value) &&
             u.value.packet.payload ==
               Addressed(old(u.value.packet.payload), reply[NetSwitch].n, reply[NetSubSwitch].n, SwOutAt(reply, port)))))
    {
      var u := GetUniverseByName(universeName);
      var n := nodeManager.Found(ByMac(mac));
      if u.None? || n.None? {
        return Ok(None);
      }
      var attached := Attach(n.value, port, u.value);
      if attached.Err? {
        return Err(attached.error);
      }
      r := Ok(Some((u.value, n.value)));
    }

    /** `node.attachUniverse(port, universe)` for a registered node and universe. */
    method Attach(n: Node, port: int, u: Universe) returns (r: Result<Universe>)
      requires Valid() && n in nodeManager.nodes && u in universes
      modifies n, u.packet
      ensures Valid() && n.reply == old(n.reply)
      ensures PortsCheck(n.reply, port).Fail? ==>
        r == Err(LibError(NodePortsLimit)) && n.ports == old(n.ports) && u.packet.payload == old(u.packet.payload)
      ensures PortsCheck(n.reply, port).Pass? ==>
        r == Ok(u) && n.ports == OrderedMaps.Put(old(n.ports), port, u) &&
        u.packet.payload == Addressed(old(u.packet.payload), n.reply[NetSwitch].n, n.reply[NetSubSwitch].n, SwOutAt(n.reply, port))
    {
      r := n.AttachUniverse(port, u);
      assert forall i :: 0 <= i < |universes| ==> universes[i].Valid() by {
        forall i | 0 <= i < |universes|
          ensures universes[i].Valid()
        {
          if universes[i].packet != u.packet {
            assert old(universes[i].Valid());
          }
        }
      }
      assert NodesValid(nodeManager.nodes);
    }

    /** `detachUniverse(nodeMac, nodePort)`: null when no node has the MAC address, else
        what the node's `detachUniverse` gives. */
    method DetachUniverse(mac: string, port: int) returns (r: Option<Universe>)
      requires Valid()
      modifies nodeManager.Repr()
      ensures Valid() && universes == old(universes) && nodeManager.nodes == old(nodeManager.nodes)
      ensures var n := old(nodeManager.Found(ByMac(mac)));
        (n.None? ==> r == None && unchanged(nodeManager.Repr())) &&
        (n.Some? ==>
          r == OrderedMaps.Get(old(n.value.ports), port) && n.value.ports == OrderedMaps.Remove(old(n.value.ports), port))
    {
      var n := nodeManager.Found(ByMac(mac));
      if n.None? {
        return None;
      }
      r := Detach(n.value, port);
    }

    /** `node.detachUniverse(port)` for a registered node. */
    method Detach(n: Node, port: int) returns (r: Option<Universe>)
      requires Valid() && n in nodeManager.nodes
      modifies n
      ensures Valid()
      ensures r == OrderedMaps.Get(old(n.ports), port) && n.ports == OrderedMaps.Remove(old(n.ports), port)
    {
      r := n.DetachUniverse(port);
      assert NodesValid(nodeManager.nodes);
    }

    /** `setDeviceGroupAction(universeName, deviceGroup, action)`: null when no universe
        has the name; otherwise every device of the class, in order, gets the action, the
        first that throws stopping the rest, and the universe is returned. Other devices
        keep their levels. */
    method SetDeviceGroupAction(universeName: string, group: string, a: Action) returns (r: Result<Option<Universe>>)
      requires Valid()
      modifies Buffers()
      ensures Valid() && universes == old(universes)
      ensures old(GetUniverseByName(universeName)).None? ==> r == Ok(None) && unchanged(old(Buffers()))
      ensures old(GetUniverseByName(universeName)).Some? ==>
        var u := old(GetUniverseByName(universeName)).value;
        var ds := Named(u.devices, group);
        var out := ApplyFrom(old(Contents(ds)), a, 0);
        Contents(ds) == out.1 &&
        (out.0.Fail? ==> r == Err(out.0.error)) && (out.0.Pass? ==> r == Ok(Some(u))) &&
        forall b :: b in old(Buffers()) && b !in BuffersOf(ds) ==> b[..] == old(b[..])
    {
      var u := GetUniverseByName(universeName);
      if u.None? {
        return Ok(None);
      }
      ghost var k := NameIndex(universes, universeName).value;
      var o := ApplyToGroup(u.value, k, group, a);
      if o.Fail? {
        return Err(o.error);
      }
      r := Ok(u);
    }

    /** The action applied to the devices of one class in a registered universe. */
    method ApplyToGroup(u: Universe, ghost k: nat, group: string, a: Action) returns (r: Outcome)
      requires Valid() && k < |universes| && universes[k] == u
      modifies Buffers()
      ensures Valid() && universes == old(universes)
      ensures var ds := Named(u.devices, group);
        (r, Contents(ds)) == ApplyFrom(old(Contents(ds)), a, 0) &&
        forall b :: b in old(Buffers()) && b !in BuffersOf(ds) ==> b[..] == old(b[..])
    {
      var ds := u.GetDevicesByName(group);
      GroupBuffers(k, group);
      r := ApplyToAll(ds, a);
      assert unchanged(this, nodeManager) && unchanged(Registered(universes), Packets(), PacketSchemas(), nodeManager.Repr());
      assert Buffers() == old(Buffers());
    }

    /** The devices of one class in a registered universe own their buffers, which are
        among the registry's. */
    lemma GroupBuffers(k: nat, group: string)
      requires Valid() && k < |universes|
      ensures OwnBuffers(Named(universes[k].devices, group))
      ensures BuffersOf(Named(universes[k].devices, group)) <= Buffers()
    {
      var ds := Named(universes[k].devices, group);
      NamedGeneric(universes[k].devices, group);
      forall b | b in BuffersOf(ds)
        ensures b in Buffers()
      {
        var j :| 0 <= j < |ds| && ds[j].dmx == b;
        assert universes[k].devices[j].dmx == b;
      }
    }

    /** The `forEach` of `setDeviceGroupAction` over devices that own their buffers. */
    static method ApplyToAll(ds: seq<Generic>, a: Action) returns (r: Outcome)
      requires OwnBuffers(ds)
      modifies BuffersOf(ds)
      ensures (r, Contents(ds)) == ApplyFrom(old(Contents(ds)), a, 0)
    {
      ghost var spec := ApplyFrom(Contents(ds), a, 0);
      for i := 0 to |ds|
        invariant ApplyFrom(Contents(ds), a, i) == spec
      {
        ghost var before := Contents(ds);
        r := ds[i].SetAction(a);
        assert Contents(ds) == before[i := ActionApplied(before[i], a).1] by {
          assert forall j :: 0 <= j < |ds| && j != i ==> ds[j].dmx != ds[i].dmx;
        }
        if r.Fail? {
          return;
        }
      }
      r := Pass;
    }

    /** The buffer `setDeviceAction(universeName, deviceIndex, ...)` writes: that of the
        device at the index in the universe of that name, if there are both. */
    ghost function Target(universeName: string, index: int): (r: set<array<int>>)
      reads this, Registered(universes)`name, Registered(universes)`devices
      ensures r <= Buffers()
    {
      var k := NameIndex(universes, universeName);
      if k.Some? && 0 <= index < |universes[k.value].devices| then
        assert universes[k.value].devices[index].dmx in Buffers();
        {universes[k.value].devices[index].dmx}
      else {}
    }

    /** `setDeviceAction(universeName, deviceIndex, action)`: null when no universe has
        the name; otherwise the device at the index, if there is one, gets the action,
        which can throw, and the universe is returned. No other buffer is written. */
    method SetDeviceAction(universeName: string, index: int, a: Action) returns (r: Result<Option<Universe>>)
      requires Valid()
      modifies Target(universeName, index)
      ensures Valid() && universes == old(universes)
      ensures old(GetUniverseByName(universeName)).None? ==> r == Ok(None) && unchanged(old(Buffers()))
      ensures old(GetUniverseByName(universeName)).Some? ==>
        var u := old(GetUniverseByName(universeName)).value;
        var d := u.GetDevice(index);
        (d.None? ==> r == Ok(Some(u)) && unchanged(old(Buffers()))) &&
        (d.Some? ==> (
           var out := ActionApplied(old(d.value.dmx[..]), a);
           d.value.dmx[..] == out.1 &&
           (out.0.Fail? ==> r == Err(out.0.error)) && (out.0.Pass? ==> r == Ok(Some(u))) &&
           forall b :: b in old(Buffers()) && b != d.value.dmx ==> b[..] == old(b[..])))
    {
      var u := GetUniverseByName(universeName);
      if u.None? {
        return Ok(None);
      }
      var d := u.value.GetDevice(index);
      if d.Some? {
        ghost var k := NameIndex(universes, universeName).value;
        var o := ApplyToDevice(d.value, k, index, a);
        if o.Fail? {
          return Err(o.error);
        }
      }
      r := Ok(u);
    }

    /** The action applied to one device of a registered universe. */
    method ApplyToDevice(d: Generic, ghost k: nat, ghost index: nat, a: Action) returns (r: Outcome)
      requires Valid() && k < |universes| && index < |universes[k].devices|
      requires universes[k].devices[index] == d
      modifies d.dmx
      ensures Valid() && universes == old(universes) && d.dmx in Buffers()
      ensures (r, d.dmx[..]) == ActionApplied(old(d.dmx[..]), a)
    {
      assert d.dmx in Buffers();
      r := d.SetAction(a);
      assert unchanged(this, nodeManager) && unchanged(Registered(universes), Packets(), PacketSchemas(), nodeManager.Repr());
      assert Buffers() == old(Buffers());
    }

    /** `setUniverseAction(payload)`: a `Group` action through `setDeviceGroupAction`, an
        `Exact` one through `setDeviceAction`; null exactly when no universe has the
        name, and then no level changes. Otherwise a `Group` action leaves the devices of
        the class as `ApplyFrom` says and an `Exact` one leaves the device at the index as
        `ActionApplied` says; every other buffer keeps its levels. */
    method SetUniverseAction(action: UniverseAction) returns (r: Result<Option<Universe>>)
      requires Valid()
      modifies Buffers()
      ensures Valid() && universes == old(universes)
      ensures r == Ok(None) <==> !old(IsUniverseExist(action.universeName))
      ensures r.Ok? && r.value.Some? ==> r.value == old(GetUniverseByName(action.universeName))
      ensures old(GetUniverseByName(action.universeName)).None? ==> unchanged(old(Buffers()))
      ensures match action
        case Group(name, group, a) =>
          (old(GetUniverseByName(name)).Some? ==>
            var u := old(GetUniverseByName(name)).value;
            var ds := old(Named(u.devices, group));
            var out := ApplyFrom(old(Contents(ds)), a, 0);
            Contents(ds) == out.1 &&
            (out.0.Fail? ==> r == Err(out.0.error)) && (out.0.Pass? ==> r == Ok(Some(u))) &&
            forall b :: b in old(Buffers()) && b !in BuffersOf(ds) ==> b[..] == old(b[..]))
        case Exact(name, index, a) =>
          (old(GetUniverseByName(name)).Some? ==>
            var u := old(GetUniverseByName(name)).value;
            var d := old(u.GetDevice(index));
            (d.None? ==> r == Ok(Some(u)) && unchanged(old(Buffers()))) &&
            (d.Some? ==> (
               var out := ActionApplied(old(d.value.dmx[..]), a);
               d.value.dmx[..] == out.1 &&
               (out.0.Fail? ==> r == Err(out.0.error)) && (out.0.Pass? ==> r == Ok(Some(u))) &&
               forall b :: b in old(Buffers()) && b != d.value.dmx ==> b[..] == old(b[..]))))
    {
      if action.Group? {
        r := SetDeviceGroupAction(action.universeName, action.deviceGroup, action.action);
      } else {
        r := SetDeviceAction(action.universeName, action.deviceIndex, action.action);
      }
    }

    /** `removeNode(macAddress)`: the as-written `removeNodes` runs with a MAC-address
        callback and the last node it removed is returned, or null. While MAC addresses are
        unique, as `addOrUpdateNode` keeps them, `NodeManager.RemoveByMacExact` shows that
        this is the node `getByMac` finds and that it alone leaves the registry. */
    method RemoveNode(mac: string) returns (r: Option<Node>)
      requires Valid()
      modifies nodeManager
      ensures Valid() && universes == old(universes)
      ensures var (kept, gone) := old(SkipRemoved(nodeManager.nodes, Accepted(nodeManager.nodes, Wanted(ByMac(mac)))));
        nodeManager.nodes == kept && r == (if |gone| == 0 then None else Some(gone[|gone| - 1]))
    {
      ghost var ns := nodeManager.nodes;
      ghost var split := SkipRemoved(ns, Accepted(ns, Wanted(ByMac(mac))));
      var removed := nodeManager.RemoveNodes(Wanted(ByMac(mac)));
      assert unchanged(this) && unchanged(Registered(universes), Packets(), PacketSchemas());
      assert (nodeManager.nodes, removed) == split;
      r := if |removed| == 0 then None else Some(removed[|removed| - 1]);
    }

    /** `init()`: discovery runs, and its status, RUNNING, is returned. */
    method Init() returns (r: DiscoveryStatus)
      requires Valid()
      modifies discovery`isActive, discovery`pollScheduled, nodeManager, communicator`outbox
      ensures Valid() && universes == old(universes) && r == Running && discovery.isActive
      ensures nodeManager.nodes == old(nodeManager.nodes) && nodeManager.watching
      ensures communicator.outbox == old(communicator.outbox) + [Datagram(PollBytes(), communicator.broadcastIpAddress)]
    {
      var _ := discovery.Run();
      assert unchanged(this) && unchanged(Registered(universes), Packets(), PacketSchemas());
      assert UniversesValid(universes);
      r := discovery.GetStatus();
    }

    /** `dispose()`: discovery stops, which stops the node registry's watcher; as written
        the registered nodes stay. */
    method Dispose()
      requires Valid()
      modifies discovery`isActive, discovery`pollScheduled, nodeManager
      ensures Valid() && universes == old(universes) && !discovery.isActive
      ensures nodeManager.nodes == old(nodeManager.nodes) && !nodeManager.watching
    {
      discovery.Stop();
      assert unchanged(this) && unchanged(Registered(universes), Packets(), PacketSchemas());
    }
  }
}
