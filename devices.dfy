/** packages/artnet-lib/core/device: a DMX device is the buffer of channel levels it owns,
    one slot per channel, allocated zeroed and never resized. `Generic` is the one driver
    modelled; its actions write channels. */
module Devices {
  import opened Wrappers
  import Helpers

  const DEFAULT_CHANNELS: nat := 512
  const LEVEL_MAX: int := 255
  /** The largest channel the `setChannel` action accepts and the most levels
      `setChannels` accepts. */
  const API_CHANNEL_MAX: int := 512

  /** One parameter of an action: a number, a string or an array of numbers. */
  datatype Param = Number(n: int) | Text(s: string) | Numbers(ns: seq<int>)

  /** `ArtNetDeviceAction`: an action name and its named parameters. */
  datatype Action = Action(actionName: string, parameters: map<string, Param>)

  // ---------------------------------------------------------------- the action API

  /** `setChannelsApi`: a `channels` array of 1 to 512 levels, each in 0..255. */
  predicate SetChannelsShape(a: Action) {
    a.actionName == "setChannels" && "channels" in a.parameters && a.parameters["channels"].Numbers? &&
    var ns := a.parameters["channels"].ns;
    1 <= |ns| <= API_CHANNEL_MAX && forall i :: 0 <= i < |ns| ==> 0 <= ns[i] <= LEVEL_MAX
  }

  /** `setChannelApi`: a `channel` in 0..512 and a `value` in 0..255. */
  predicate SetChannelShape(a: Action) {
    a.actionName == "setChannel" &&
    "channel" in a.parameters && a.parameters["channel"].Number? &&
    0 <= a.parameters["channel"].n <= API_CHANNEL_MAX &&
    "value" in a.parameters && a.parameters["value"].Number? &&
    0 <= a.parameters["value"].n <= LEVEL_MAX
  }

  /** `API`, the union of the two, told apart by `actionName`. */
  predicate WellFormed(a: Action) {
    SetChannelsShape(a) || SetChannelShape(a)
  }

  function TypeName(p: Param): string {
    match p
    case Number(_) => "number"
    case Text(_) => "string"
    case Numbers(_) => "array"
  }

  /** The issue a bounded number raises: below the minimum or above the maximum. */
  function RangeIssues(n: int, min: int, minText: string, max: int, maxText: string): (r: seq<string>)
    ensures r == [] <==> min <= n <= max
  {
    (if n < min then ["Number must be greater than or equal to " + minText] else []) +
    (if n > max then ["Number must be less than or equal to " + maxText] else [])
  }

  /** The issues of a parameter that must be a number in min..max. */
  function NumberIssues(ps: map<string, Param>, key: string, min: int, minText: string, max: int, maxText: string): (r: seq<string>)
    ensures r == [] <==> key in ps && ps[key].Number? && min <= ps[key].n <= max
  {
    if key !in ps then ["Required"]
    else match ps[key]
      case Number(n) => RangeIssues(n, min, minText, max, maxText)
      case _ => ["Expected number, received " + TypeName(ps[key])]
  }

  /** One issue per element out of 0..255, from index i on. */
  function LevelIssues(ns: seq<int>, i: nat): (r: seq<string>)
    requires i <= |ns|
    ensures r == [] <==> forall j :: i <= j < |ns| ==> 0 <= ns[j] <= LEVEL_MAX
    decreases |ns| - i
  {
    if i == |ns| then [] else RangeIssues(ns[i], 0, "0", LEVEL_MAX, "255") + LevelIssues(ns, i + 1)
  }

  /** The issues of the `channels` array: its length first, then its elements in order. */
  function ChannelsIssues(ps: map<string, Param>): (r: seq<string>)
    ensures r == [] <==> ("channels" in ps && ps["channels"].Numbers? &&
      1 <= |ps["channels"].ns| <= API_CHANNEL_MAX &&
      forall i :: 0 <= i < |ps["channels"].ns| ==> 0 <= ps["channels"].ns[i] <= LEVEL_MAX)
  {
    if "channels" !in ps then ["Required"]
    else match ps["channels"]
      case Numbers(ns) =>
        (if |ns| < 1 then ["Array must contain at least 1 element(s)"] else []) +
        (if |ns| > API_CHANNEL_MAX then ["Array must contain at most 512 element(s)"] else []) +
        LevelIssues(ns, 0)
      case _ => ["Expected array, received " + TypeName(ps["channels"])]
  }

  /** The issues of `channel` and then of `value`. */
  function ChannelValueIssues(ps: map<string, Param>): (r: seq<string>)
    ensures r == [] <==> ("channel" in ps && ps["channel"].Number? && 0 <= ps["channel"].n <= API_CHANNEL_MAX &&
      "value" in ps && ps["value"].Number? && 0 <= ps["value"].n <= LEVEL_MAX)
  {
    NumberIssues(ps, "channel", 0, "0", API_CHANNEL_MAX, "512") +
    NumberIssues(ps, "value", 0, "0", LEVEL_MAX, "255")
  }

  /** The issues `this.api.safeParse(action)` reports, one message per issue. */
  function Issues(a: Action): (r: seq<string>)
    ensures r == [] <==> WellFormed(a)
  {
    if a.actionName == "setChannels" then ChannelsIssues(a.parameters)
    else if a.actionName == "setChannel" then ChannelValueIssues(a.parameters)
    else ["Invalid discriminator value. Expected 'setChannels' | 'setChannel'"]
  }

  /** `validate`: an action with issues throws a validation error carrying all of them. */
  function Validate(a: Action): (r: Outcome)
    ensures r == Pass <==> WellFormed(a)
    ensures r.Fail? ==> r.error == Invalid(Issues(a)) && |r.error.issues| > 0
  {
    var issues := Issues(a);
    if issues == [] then Pass else Fail(Invalid(issues))
  }

  // ---------------------------------------------------------------- channel data

  /** The channel data `setChannel` leaves, or the error it throws. A channel above the last
      index throws; a negative channel names a property of the array that is not one of its
      elements, so the data is unchanged; any other slot gets the value clamped to 0..255. */
  function ChannelSet(data: seq<int>, channel: int, value: int): (r: Result<seq<int>>)
    ensures r.Err? <==> channel >= |data|
    ensures r.Err? ==> r.error == LibError(CurrentPacketDataLimit)
    ensures r.Ok? ==> |r.value| == |data|
    ensures r.Ok? ==> forall j :: 0 <= j < |data| && j != channel ==> r.value[j] == data[j]
    ensures r.Ok? && 0 <= channel ==> 0 <= r.value[channel] <= LEVEL_MAX
    ensures r.Ok? && 0 <= channel && 0 <= value <= LEVEL_MAX ==> r.value[channel] == value
  {
    if channel > |data| - 1 then Err(LibError(CurrentPacketDataLimit))
    else if channel < 0 then Ok(data)
    else Ok(data[channel := Helpers.Clamp(0, LEVEL_MAX, value)])
  }

  /** Writing the same channel twice leaves what the second write leaves. */
  lemma ChannelSetTwice(data: seq<int>, channel: int, v: int, w: int)
    requires ChannelSet(data, channel, v).Ok?
    ensures ChannelSet(ChannelSet(data, channel, v).value, channel, w) == ChannelSet(data, channel, w)
  {
    if 0 <= channel {
      var x, y := Helpers.Clamp(0, LEVEL_MAX, v), Helpers.Clamp(0, LEVEL_MAX, w);
      assert data[channel := x][channel := y] == data[channel := y];
    }
  }

  /** `setChannels`' `forEach`: level i goes to channel i, from index i on, and the first
      channel past the end throws with the earlier writes kept. */
  function WriteFrom(data: seq<int>, channels: seq<int>, i: nat): (r: (Outcome, seq<int>))
    requires i <= |channels|
    decreases |channels| - i
  {
    if i == |channels| then (Pass, data)
    else match ChannelSet(data, i, channels[i])
      case Err(e) => (Fail(e), data)
      case Ok(d) => WriteFrom(d, channels, i + 1)
  }

  function ChannelsWritten(data: seq<int>, channels: seq<int>): (Outcome, seq<int>) {
    WriteFrom(data, channels, 0)
  }

  /** The levels the first k channels hold after `setChannels`: each clamped to 0..255. */
  function Clamped(channels: seq<int>, k: nat): (r: seq<int>)
    requires k <= |channels|
    ensures |r| == k
  {
    seq(k, i requires 0 <= i < k => Helpers.Clamp(0, LEVEL_MAX, channels[i]))
  }

  lemma {:induction false} WriteFromForm(data: seq<int>, channels: seq<int>, i: nat)
    requires i <= |channels| && i <= |data|
    requires data[..i] == Clamped(channels, i)
    ensures var k := Helpers.Min(|channels|, |data|);
      WriteFrom(data, channels, i) ==
        ((if |channels| > |data| then Fail(LibError(CurrentPacketDataLimit)) else Pass),
         Clamped(channels, k) + data[k..])
    decreases |channels| - i
  {
    var k := Helpers.Min(|channels|, |data|);
    if i == |channels| {
      assert data == data[..i] + data[i..];
    } else if i == |data| {
      assert data == data[..i] + data[i..];
    } else {
      var d := data[i := Helpers.Clamp(0, LEVEL_MAX, channels[i])];
      assert ChannelSet(data, i, channels[i]) == Ok(d);
      assert d[..i + 1] == Clamped(channels, i + 1) by {
        assert d[..i] == data[..i];
      }
      WriteFromForm(d, channels, i + 1);
      assert d[k..] == data[k..];
    }
  }

  /** `setChannels` leaves channel i at level i clamped, for every i the device has, and
      the rest of the data as it was. With more levels than channels it throws, but only
      after writing every channel: it is not atomic. */
  lemma ChannelsWrittenForm(data: seq<int>, channels: seq<int>)
    ensures var k := Helpers.Min(|channels|, |data|);
      ChannelsWritten(data, channels) ==
        ((if |channels| > |data| then Fail(LibError(CurrentPacketDataLimit)) else Pass),
         Clamped(channels, k) + data[k..])
  {
    WriteFromForm(data, channels, 0);
  }

  /** What `setAction` leaves: a rejected action throws and writes nothing; `setChannels`
      writes the levels; `setChannel` writes one channel. */
  function ActionApplied(data: seq<int>, a: Action): (r: (Outcome, seq<int>))
    ensures !WellFormed(a) ==> r == (Fail(Invalid(Issues(a))), data)
    ensures SetChannelsShape(a) ==> r == ChannelsWritten(data, a.parameters["channels"].ns)
    ensures SetChannelShape(a) ==>
      var w := ChannelSet(data, a.parameters["channel"].n, a.parameters["value"].n);
      r == if w.Ok? then (Pass, w.value) else (Fail(w.error), data)
  {
    match Validate(a)
    case Fail(e) => (Fail(e), data)
    case Pass =>
      if SetChannelsShape(a) then ChannelsWritten(data, a.parameters["channels"].ns)
      else if SetChannelShape(a) then
        match ChannelSet(data, a.parameters["channel"].n, a.parameters["value"].n)
        case Err(e) => (Fail(e), data)
        case Ok(d) => (Pass, d)
      else (Pass, data)
  }

  /** `setActions`' `forEach`: the actions in order, stopping at the first that throws. */
  function ActionsApplied(data: seq<int>, actions: seq<Action>): (r: (Outcome, seq<int>))
    decreases |actions|
  {
    if actions == [] then (Pass, data)
    else
      var (o, d) := ActionApplied(data, actions[0]);
      if o.Fail? then (o, d) else ActionsApplied(d, actions[1..])
  }

  /** Applying a + b is applying a and then, unless a threw, b. */
  lemma {:induction false} ActionsAppliedAppend(data: seq<int>, a: seq<Action>, b: seq<Action>)
    ensures ActionsApplied(data, a + b) ==
      var (o, d) := ActionsApplied(data, a);
      if o.Fail? then (o, d) else ActionsApplied(d, b)
    decreases |a|
  {
    if a == [] {
      assert a + b == b;
    } else {
      assert (a + b)[0] == a[0] && (a + b)[1..] == a[1..] + b;
      var step := ActionApplied(data, a[0]);
      if step.0.Pass? {
        ActionsAppliedAppend(step.1, a[1..], b);
      }
    }
  }

  /** No action changes how many channels there are. */
  lemma {:induction false} ActionsKeepSize(data: seq<int>, actions: seq<Action>)
    ensures |ActionsApplied(data, actions).1| == |data|
    decreases |actions|
  {
    if actions != [] {
      var a := actions[0];
      assert |ActionApplied(data, a).1| == |data| by {
        if SetChannelsShape(a) {
          ChannelsWrittenForm(data, a.parameters["channels"].ns);
        }
      }
      ActionsKeepSize(ActionApplied(data, a).1, actions[1..]);
    }
  }

  // ---------------------------------------------------------------- the device

  /** A `Generic` device: `Device`'s channel buffer and helpers with `Generic`'s actions. */
  class Generic {
    /** `dxmData`. */
    const dmx: array<int>

    /** `new Generic(dmxDataLength)`: that many channels, all 0 (512 by default). */
    constructor (size: nat)
      ensures fresh(dmx) && dmx.Length == size
      ensures forall i :: 0 <= i < size ==> dmx[i] == 0
    {
      dmx := new int[size](_ => 0);
    }

    /** `getDmxData`: a copy of the levels. */
    function GetDmxData(): (r: seq<int>)
      reads dmx
      ensures |r| == GetDmxDataSize() && forall i :: 0 <= i < |r| ==> r[i] == dmx[i]
    {
      dmx[..]
    }

    /** `getDmxDataSize`: the channel count. */
    function GetDmxDataSize(): nat {
      dmx.Length
    }

    /** `getName`: the constructor's name. */
    function GetName(): string {
      "Generic"
    }

    method SetChannel(channel: int, value: int) returns (r: Outcome)
      modifies dmx
      ensures var w := ChannelSet(old(dmx[..]), channel, value);
        (w.Err? ==> r == Fail(w.error) && dmx[..] == old(dmx[..])) &&
        (w.Ok? ==> r == Pass && dmx[..] == w.value)
    {
      if channel > dmx.Length - 1 {
        return Fail(LibError(CurrentPacketDataLimit));
      }
      if channel >= 0 {
        dmx[channel] := Helpers.Clamp(0, LEVEL_MAX, value);
      }
      r := Pass;
    }

    method SetChannels(channels: seq<int>) returns (r: Outcome)
      modifies dmx
      ensures (r, dmx[..]) == ChannelsWritten(old(dmx[..]), channels)
    {
      var i := 0;
      while i < |channels|
        invariant 0 <= i <= |channels|
        invariant ChannelsWritten(old(dmx[..]), channels) == WriteFrom(dmx[..], channels, i)
      {
        r := SetChannel(i, channels[i]);
        if r.Fail? {
          return;
        }
        i := i + 1;
      }
      r := Pass;
    }

    method SetAction(a: Action) returns (r: Outcome)
      modifies dmx
      ensures (r, dmx[..]) == ActionApplied(old(dmx[..]), a)
    {
      r := Validate(a);
      if r.Fail? {
        return;
      }
      if SetChannelsShape(a) {
        r := SetChannels(a.parameters["channels"].ns);
      } else if SetChannelShape(a) {
        r := SetChannel(a.parameters["channel"].n, a.parameters["value"].n);
      }
    }

    method SetActions(actions: seq<Action>) returns (r: Outcome)
      modifies dmx
      ensures (r, dmx[..]) == ActionsApplied(old(dmx[..]), actions)
    {
      var i := 0;
      while i < |actions|
        invariant 0 <= i <= |actions|
        invariant ActionsApplied(old(dmx[..]), actions) == ActionsApplied(dmx[..], actions[i..])
      {
        assert actions[i..][1..] == actions[i + 1..];
        r := SetAction(actions[i]);
        if r.Fail? {
          return;
        }
        i := i + 1;
      }
      r := Pass;
    }
  }
}
