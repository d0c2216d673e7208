/** packages/artnet-packets/lib/dmx: ArtDmx, the levels of one universe of DMX512 channels
    behind the protocol version, sequence, physical port, subnet, net and data length. */
module DmxPacket {
  import opened Wrappers
  import opened ByteOrder
  import opened Schemas
  import opened Encoder
  import OrderedMaps
  import opened ArtNetPackets
  import Helpers

  const DMX_CHANNEL_MAX: int := 512
  const DMX_VALUE_MAX: int := 255

  /** The records of `schemaDefault` before the data length. */
  function Front(): seq<(Key, Field)> {
    [(ProtoVersion, NumberField(2, BE)), (Sequence, NumberField(1, BE)), (Physical, NumberField(1, BE)),
     (SubNet, NumberField(1, BE)), (Net, NumberField(1, BE))]
  }

  /** `schemaDefault` with its `dmxData` record holding n one-byte elements. The class keeps
      a single static schema whose `dmxData` record every constructor overwrites; the
      `shared` parameters below are that record's count when the call is made. */
  function DmxSchema(n: nat): seq<(Key, Field)> {
    Front() + [(Length, NumberField(2, BE)), (DmxData, ArrayField(n, 1, LE))]
  }

  /** The constructor's defaults for a packet of n channels: protocol version 14, net,
      subnet, sequence and physical port 0, the length, and n zero levels. The object
      literal's keys are distinct, so listing them in schema order gives the same object. */
  function DmxDefaults(n: nat): Payload<Key> {
    Object(DefaultEntries(n))
  }

  function DefaultEntries(n: nat): seq<(Key, Value)> {
    [(ProtoVersion, Num(PROTOCOL_VERSION)), (Sequence, Num(0)), (Physical, Num(0)), (SubNet, Num(0)),
     (Net, Num(0)), (Length, Num(n)), (DmxData, Arr(seq(n, _ => 0)))]
  }

  /** Entries that name the seven DMX fields in schema order. */
  predicate InSchemaOrder(e: seq<(Key, Value)>) {
    |e| == 7 && e[0].0 == ProtoVersion && e[1].0 == Sequence && e[2].0 == Physical &&
    e[3].0 == SubNet && e[4].0 == Net && e[5].0 == Length && e[6].0 == DmxData
  }

  /** The object such entries spell holds each entry's value under its key. */
  lemma ObjectValues(e: seq<(Key, Value)>)
    requires InSchemaOrder(e)
    ensures var o := Object(e);
      o[ProtoVersion] == e[0].1 && o[Sequence] == e[1].1 && o[Physical] == e[2].1 && o[SubNet] == e[3].1 &&
      o[Net] == e[4].1 && o[Length] == e[5].1 && o[DmxData] == e[6].1
  {
    LookupAt(e, 0);
    LookupAt(e, 1);
    LookupAt(e, 2);
    LookupAt(e, 3);
    LookupAt(e, 4);
    LookupAt(e, 5);
    LookupAt(e, 6);
  }

  /** ... and no other key. */
  lemma ObjectKeys(e: seq<(Key, Value)>)
    requires InSchemaOrder(e)
    ensures forall k :: k in Object(e) ==> k in DmxKeys()
  {
  }

  lemma ObjectHeaderless(e: seq<(Key, Value)>)
    requires InSchemaOrder(e)
    ensures ID !in Object(e) && OpCode !in Object(e)
  {
    forall i | 0 <= i < |e|
      ensures e[i].0 != ID && e[i].0 != OpCode
    {
      assert i == 0 || i == 1 || i == 2 || i == 3 || i == 4 || i == 5 || i == 6;
    }
  }

  function DmxKeys(): set<Key> {
    {ProtoVersion, Sequence, Physical, SubNet, Net, Length, DmxData}
  }

  lemma DefaultValues(n: nat)
    ensures Complete(DmxDefaults(n)) && DmxDefaults(n)[Length] == Num(n)
    ensures DmxDefaults(n)[DmxData] == Arr(seq(n, _ => 0))
    ensures forall k :: k in DmxDefaults(n) ==> k in DmxKeys()
  {
    ObjectValues(DefaultEntries(n));
    ObjectKeys(DefaultEntries(n));
  }

  /** `payload.length ?? DMX_CHANNEL_MAX`. */
  function LengthOf(o: Payload<Key>): int {
    if Length in o && o[Length].Num? then o[Length].n else DMX_CHANNEL_MAX
  }

  predicate NumberOrAbsent(o: Payload<Key>, k: Key) {
    k in o ==> o[k].Num?
  }

  /** `Partial<DmxPacketPayload>`: the number fields given hold numbers, `dmxData` an array. */
  predicate Typed(o: Payload<Key>) {
    NumberOrAbsent(o, ProtoVersion) && NumberOrAbsent(o, Sequence) && NumberOrAbsent(o, Physical) &&
    NumberOrAbsent(o, SubNet) && NumberOrAbsent(o, Net) && NumberOrAbsent(o, Length) &&
    (DmxData in o ==> o[DmxData].Arr?)
  }

  /** A length `new Array(length)` accepts; any other throws a RangeError. */
  predicate ArrayLength(n: int) {
    0 <= n < 0x1_0000_0000
  }

  /** Every field of a DMX payload is present with a value of its type. */
  predicate Complete(p: Payload<Key>) {
    ProtoVersion in p && p[ProtoVersion].Num? && Sequence in p && p[Sequence].Num? &&
    Physical in p && p[Physical].Num? && SubNet in p && p[SubNet].Num? && Net in p && p[Net].Num? &&
    Length in p && p[Length].Num? && DmxData in p && p[DmxData].Arr?
  }

  /** The payload `new Dmx(payload)` holds: the defaults for the given length, the payload
      spread over them, and the header in front. */
  function DmxPayload(o: Payload<Key>): Payload<Key>
    requires Typed(o) && ArrayLength(LengthOf(o))
  {
    WithHeader(OP_DMX, DmxDefaults(LengthOf(o)) + o)
  }

  /** Every field is present with a value of its type, and `length` is the length the
      defaults were built for. */
  lemma PayloadFields(o: Payload<Key>)
    requires Typed(o) && ArrayLength(LengthOf(o))
    ensures Complete(DmxPayload(o)) && DmxPayload(o)[Length] == Num(LengthOf(o))
  {
    DefaultValues(LengthOf(o));
  }

  lemma DefaultsHeaderless(n: nat)
    ensures ID !in DmxDefaults(n) && OpCode !in DmxDefaults(n)
  {
    ObjectHeaderless(DefaultEntries(n));
  }

  /** The fields given are kept as given. */
  lemma PayloadKeeps(o: Payload<Key>)
    requires Typed(o) && ArrayLength(LengthOf(o))
    ensures forall k :: k in o ==> k in DmxPayload(o) && DmxPayload(o)[k] == o[k]
  {
  }

  /** Without data the packet holds `length` zero levels. */
  lemma PayloadZeros(o: Payload<Key>)
    requires Typed(o) && ArrayLength(LengthOf(o)) && DmxData !in o
    ensures DmxPayload(o)[DmxData] == Arr(seq(LengthOf(o), _ => 0))
  {
    DefaultValues(LengthOf(o));
  }

  /** The header is the ArtDmx header unless it is given too. */
  lemma PayloadHeader(o: Payload<Key>)
    requires Typed(o) && ArrayLength(LengthOf(o)) && ID !in o && OpCode !in o
    ensures DmxPayload(o)[ID] == Str(ArtNetId()) && DmxPayload(o)[OpCode] == Num(OP_DMX)
  {
    DefaultsHeaderless(LengthOf(o));
  }

  lemma PayloadIs(o: Payload<Key>)
    requires Typed(o) && ArrayLength(LengthOf(o))
    ensures DmxPayload(o) == WithHeader(OP_DMX, DmxDefaults(LengthOf(o)) + o)
  {
  }

  function Is(data: seq<byte>): Result<bool> {
    IsOp(data, OP_DMX)
  }

  lemma LengthOffset(shared: nat)
    ensures OffsetOf(DmxSchema(shared), Length) == Some(6)
    ensures CalcBytes(DmxSchema(shared)) == 8 + shared
  {
    LengthAt(shared);
    DmxBytes(shared);
  }

  lemma LengthAt(shared: nat)
    ensures OffsetOf(DmxSchema(shared), Length) == Some(6)
  {
    var tail := [(Length, NumberField(2, BE)), (DmxData, ArrayField(shared, 1, LE))];
    assert PackedSize(Front()) == 6 by {
      Sizes(Front(), 6, 6);
    }
    assert OffsetOf(tail, Length) == Some(0);
    OffsetOfSkip(Front(), tail, Length);
  }

  lemma DmxBytes(shared: nat)
    ensures CalcBytes(DmxSchema(shared)) == 8 + shared
  {
    var tail := [(Length, NumberField(2, BE)), (DmxData, ArrayField(shared, 1, LE))];
    assert CalcBytes(Front()) == 6 by {
      Sizes(Front(), 6, 6);
    }
    assert CalcBytes(tail) == 2 + shared by {
      assert CalcFrom(tail, 2) == 0 && PackedFrom(tail, 2) == 0;
      assert CalcFrom(tail, 1) == shared && PackedFrom(tail, 1) == shared;
      Sizes(tail, 2 + shared, 2 + shared);
    }
    SizesAppend(Front(), tail);
  }

  /** `getDmxDataLen`: null for a datagram that is not an ArtDmx, else the big-endian
      16-bit length at the length field's offset behind the 10-byte header, which throws
      a RangeError on a datagram shorter than 18 bytes. */
  function GetDmxDataLen(data: seq<byte>, shared: nat): (r: Result<Option<nat>>)
    ensures Is(data).Err? ==> r == Err(RangeError)
    ensures Is(data) == Ok(false) ==> r == Ok(None)
    ensures Is(data) == Ok(true) && |data| < 18 ==> r == Err(RangeError)
    ensures Is(data) == Ok(true) && |data| >= 18 ==> r == Ok(Some(256 * data[16] as int + data[17] as int))
  {
    LengthOffset(shared);
    HeaderLength();
    match Is(data)
    case Err(e) => Err(e)
    case Ok(isDmx) =>
      if !isDmx then Ok(None)
      else
        var offset := OffsetOf(DmxSchema(shared), Length);
        if offset.None? || offset.value == 0 || offset.value == CalcBytes(DmxSchema(shared)) then Ok(None)
        else match GetHeaderLength(HeaderSchema()) {
          case Err(e) => Err(e)
          case Ok(h) =>
            var at := offset.value + h;
            if at + 2 > |data| then Err(RangeError)
            else
              TwoBytes(data[at..at + 2]);
              Ok(Some(FromBytes(data[at..at + 2], BE)))
        }
  }

  /** The shared static schema's current `dmxData` count never changes what
      `getDmxDataLen` reads. */
  lemma GetDmxDataLenShared(data: seq<byte>, shared: nat, other: nat)
    ensures GetDmxDataLen(data, shared) == GetDmxDataLen(data, other)
  {
  }

  /** `clampToDmxRange`: the channel clamped to [0, 512] and the value to [0, 255]. */
  function ClampToDmxRange(channel: int, value: int): (r: (int, int))
    ensures 0 <= r.0 <= DMX_CHANNEL_MAX && 0 <= r.1 <= DMX_VALUE_MAX
    ensures 0 <= channel <= DMX_CHANNEL_MAX ==> r.0 == channel
    ensures 0 <= value <= DMX_VALUE_MAX ==> r.1 == value
    ensures (channel < 0 ==> r.0 == 0) && (channel > DMX_CHANNEL_MAX ==> r.0 == DMX_CHANNEL_MAX)
    ensures (value < 0 ==> r.1 == 0) && (value > DMX_VALUE_MAX ==> r.1 == DMX_VALUE_MAX)
  {
    (Helpers.Clamp(0, DMX_CHANNEL_MAX, channel), Helpers.Clamp(0, DMX_VALUE_MAX, value))
  }

  /** JavaScript's `a[i] = v` on an array: past the end the array grows to i + 1 elements.
      The gap it opens holds holes. The element values keep a hole as 0, the byte `encode`
      writes for it; which indices are holes is kept apart, by `HolesAfter`. */
  function Assign(a: seq<int>, i: nat, v: int): (r: seq<int>)
    ensures |r| == Helpers.Max(|a|, i + 1) && r[i] == v
    ensures forall j :: 0 <= j < |r| && j != i ==> r[j] == if j < |a| then a[j] else 0
  {
    if i < |a| then a[i := v] else a + seq(i - |a|, _ => 0) + [v]
  }

  /** The holes of an array: indices inside it whose element is absent, held as 0. */
  predicate HolesOf(a: seq<int>, holes: set<int>) {
    forall j :: j in holes ==> 0 <= j < |a| && a[j] == 0
  }

  /** The holes after `a[i] = v` on an array of `size` elements: index i is filled, and a
      store past the end opens a hole at every index from the old end up to i. */
  function HolesAfter(holes: set<int>, size: nat, i: nat): set<int> {
    (holes - {i}) + Gap(size, i)
  }

  /** The indices from lo up to, not including, hi. */
  function Gap(lo: int, hi: int): (r: set<int>)
    ensures forall j :: j in r <==> lo <= j < hi
    decreases hi - lo
  {
    if hi <= lo then {} else Gap(lo, hi - 1) + {hi - 1}
  }

  /** A store keeps the holes within the new array, makes the stored index no hole, and
      turns exactly the indices it skipped past the old end into holes. */
  lemma AssignHoles(a: seq<int>, holes: set<int>, i: nat, v: int)
    requires HolesOf(a, holes)
    ensures HolesOf(Assign(a, i, v), HolesAfter(holes, |a|, i))
    ensures i !in HolesAfter(holes, |a|, i)
    ensures forall j :: |a| <= j < i ==> j in HolesAfter(holes, |a|, i)
    ensures forall j :: 0 <= j < |a| && j != i ==> (j in HolesAfter(holes, |a|, i) <==> j in holes)
  {
  }

  /** The `dmxData` `setChannel` leaves: it throws when the channel as given exceeds the
      packet's `length`, and otherwise stores the clamped value at the clamped channel. */
  function ChannelWrite(data: seq<int>, length: int, channel: int, value: int): (r: Result<seq<int>>)
    ensures r.Err? <==> channel > length
    ensures r.Err? ==> r.error == ChannelAboveLength
    ensures r.Ok? ==> var (c, v) := ClampToDmxRange(channel, value);
      |r.value| == Helpers.Max(|data|, c + 1) && r.value[c] == v &&
      forall j :: 0 <= j < |data| && j != c ==> r.value[j] == data[j]
  {
    if channel > length then Err(ChannelAboveLength)
    else
      var (c, v) := ClampToDmxRange(channel, value);
      Ok(Assign(data, c, v))
  }

  /** The `dmxData` `setChannels` leaves: every element clamped to [0, 512]. */
  function ClampChannels(data: seq<int>): (r: seq<int>)
    ensures |r| == |data| && forall i :: 0 <= i < |data| ==> r[i] == ClampToDmxRange(data[i], 0).0
  {
    seq(|data|, i requires 0 <= i < |data| => ClampToDmxRange(data[i], 0).0)
  }

  /** What `incSequence` stores: `sequence >= 255 ? 0 : sequence++` assigns the value the
      postfix increment returns, which is the sequence before it. */
  function SequenceAfterInc(s: int): int {
    if s >= 255 then 0 else s
  }

  /** As written, `incSequence` never advances a sequence below 255. */
  lemma SequenceStalls(s: int)
    requires s < 255
    ensures SequenceAfterInc(s) == s
  {
  }

  /** The step `incSequence` evidently means: count up, from 255 back to 0. */
  function NextSequence(s: int): int {
    if s >= 255 then 0 else s + 1
  }

  /** Every sequence number in 0..255 moves on to its successor modulo 256. */
  lemma NextSequenceAdvances(s: int)
    requires 0 <= s <= 255
    ensures NextSequence(s) == (s + 1) % 256 && NextSequence(s) != s
    ensures 0 <= NextSequence(s) <= 255
  {
  }

  class Dmx {
    var payload: Payload<Key>
    const schema: Schema<Key>
    /** The `dmxData` count of the schema the packet was built with. */
    const count: nat
    /** The indices of `dmxData` that are holes, which read as `undefined`. */
    var holes: set<int>

    ghost predicate Valid()
      reads this, schema
    {
      schema.entries == Layout(DmxSchema(count)) && Complete(payload) && payload[Length] == Num(count) &&
      HolesOf(payload[DmxData].a, holes)
    }

    /** `new Dmx(payload)`. */
    constructor (o: Payload<Key>)
      requires Typed(o) && ArrayLength(LengthOf(o))
      ensures Valid() && fresh(schema)
      ensures count == LengthOf(o) && payload == DmxPayload(o) && holes == {}
    {
      var n := LengthOf(o);
      count := n;
      payload := DmxPayload(o);
      holes := {};
      PayloadFields(o);
      DmxLayoutUnique(n);
      OrderedMaps.FromListUnique(Layout(DmxSchema(n)));
      schema := new Schema(Layout(DmxSchema(n)));
    }

    method Encode() returns (r: Result<seq<byte>>)
      requires Valid()
      ensures r == Encoded(payload, Layout(DmxSchema(count)))
    {
      r := Encoder.Encode(payload, schema);
    }

    method Decode(buffer: array<byte>) returns (r: Result<Payload<Key>>)
      requires Valid()
      modifies buffer
      ensures (r, buffer[..]) == Decoded(old(buffer[..]), Layout(DmxSchema(count)))
      ensures payload == old(payload)
    {
      r := Encoder.Decode(buffer, schema);
    }

    method SetNet(net: int)
      requires Valid()
      modifies this
      ensures Valid() && payload == old(payload)[Net := Num(net)] && GetNet() == net && holes == old(holes)
    {
      payload := payload[Net := Num(net)];
    }

    function GetNet(): int
      reads this
      requires Complete(payload)
    {
      payload[Net].n
    }

    method SetSubnet(subNet: int)
      requires Valid()
      modifies this
      ensures Valid() && payload == old(payload)[SubNet := Num(subNet)] && GetSubnet() == subNet && holes == old(holes)
    {
      payload := payload[SubNet := Num(subNet)];
    }

    function GetSubnet(): int
      reads this
      requires Complete(payload)
    {
      payload[SubNet].n
    }

    method SetPhysicalPort(port: int)
      requires Valid()
      modifies this
      ensures Valid() && payload == old(payload)[Physical := Num(port)] && holes == old(holes)
    {
      payload := payload[Physical := Num(port)];
    }

    /** `incSequence`: the postfix increment stores sequence + 1 and the assignment then
        puts the old value back. */
    method IncSequence() returns (s: int)
      requires Valid()
      modifies this
      ensures Valid()
      ensures s == SequenceAfterInc(old(payload[Sequence].n))
      ensures payload == old(payload)[Sequence := Num(s)] && holes == old(holes)
    {
      var current := payload[Sequence].n;
      var stored: int;
      if current >= 255 {
        stored := 0;
      } else {
        payload := payload[Sequence := Num(current + 1)];
        stored := current;
      }
      payload := payload[Sequence := Num(stored)];
      s := payload[Sequence].n;
    }

    /** `checkChannelInRange`: a channel above the packet's `length` throws. */
    function CheckChannelInRange(channel: int): (r: Outcome)
      reads this
      requires Complete(payload)
      ensures r == Pass <==> channel <= payload[Length].n
      ensures r.Fail? ==> r.error == ChannelAboveLength
    {
      if channel > payload[Length].n then Fail(ChannelAboveLength) else Pass
    }

    method SetChannel(channel: int, value: int) returns (r: Outcome)
      requires Valid()
      modifies this
      ensures Valid()
      ensures var w := ChannelWrite(old(payload[DmxData].a), old(payload[Length].n), channel, value);
        (w.Err? ==> r == Fail(w.error) && payload == old(payload) && holes == old(holes)) &&
        (w.Ok? ==>
          r == Pass && payload == old(payload)[DmxData := Arr(w.value)] &&
          holes == HolesAfter(old(holes), |old(payload[DmxData].a)|, ClampToDmxRange(channel, value).0))
    {
      var (channelInRange, valueInRange) := ClampToDmxRange(channel, value);
      r := CheckChannelInRange(channel);
      if r.Fail? {
        return;
      }
      var data := payload[DmxData].a;
      AssignHoles(data, holes, channelInRange, valueInRange);
      payload := payload[DmxData := Arr(Assign(data, channelInRange, valueInRange))];
      holes := HolesAfter(holes, |data|, channelInRange);
    }

    /** `setChannels`: `data.map` clamps each element to [0, 512] and checks it against
        `length`; a throw leaves `dmxData` as it was. */
    method SetChannels(data: seq<int>) returns (r: Outcome)
      requires Valid()
      modifies this
      ensures Valid()
      ensures r == Pass <==> forall i :: 0 <= i < |data| ==> ClampChannels(data)[i] <= old(payload[Length].n)
      ensures r.Fail? ==> r.error == ChannelAboveLength && payload == old(payload) && holes == old(holes)
      ensures r.Pass? ==> payload == old(payload)[DmxData := Arr(ClampChannels(data))] && holes == {}
    {
      var mapped: seq<int> := [];
      var i := 0;
      while i < |data|
        invariant 0 <= i <= |data|
        invariant mapped == ClampChannels(data)[..i]
        invariant forall j :: 0 <= j < i ==> ClampChannels(data)[j] <= payload[Length].n
      {
        var inRange := ClampToDmxRange(data[i], 0).0;
        var check := CheckChannelInRange(inRange);
        if check.Fail? {
          return check;
        }
        mapped := mapped + [inRange];
        i := i + 1;
      }
      assert mapped == ClampChannels(data);
      payload := payload[DmxData := Arr(mapped)];
      holes := {};
      r := Pass;
    }

    /** `getChannelValue`: the check against `length`, then the element, or None
        (`undefined`) for an index outside the array or at a hole. */
    function GetChannelValue(channel: int): (r: Result<Option<int>>)
      reads this
      requires Complete(payload)
      ensures r.Err? <==> channel > payload[Length].n
      ensures r.Ok? && r.value.Some? <==>
        channel <= payload[Length].n && 0 <= channel < |payload[DmxData].a| && channel !in holes
      ensures r.Ok? && r.value.Some? ==> r.value.value == payload[DmxData].a[channel]
    {
      match CheckChannelInRange(channel)
      case Fail(e) => Err(e)
      case Pass =>
        var data := payload[DmxData].a;
        if 0 <= channel < |data| && channel !in holes then Ok(Some(data[channel])) else Ok(None)
    }
  }

  // ---------------------------------------------------------------- create

  /** The header, the records before the length, and the length field. */
  function Prefix(): seq<(Key, Field)> {
    HeaderSchema() + Front() + [(Length, NumberField(2, BE))]
  }

  lemma LayoutSplit(n: nat)
    ensures Layout(DmxSchema(n)) == Prefix() + [(DmxData, ArrayField(n, 1, LE))]
    ensures Layout(DmxSchema(n)) == (HeaderSchema() + Front()) + [(Length, NumberField(2, BE))] + [(DmxData, ArrayField(n, 1, LE))]
    ensures PackedSize(HeaderSchema() + Front()) == 16 && PackedSize(Prefix()) == 18
    ensures CalcBytes(Layout(DmxSchema(n))) == 18 + n
  {
    var h, f, l, d := HeaderSchema(), Front(), [(Length, NumberField(2, BE))], [(DmxData, ArrayField(n, 1, LE))];
    assert h + (f + (l + d)) == h + f + l + d;
    assert Prefix() == h + f + l;
    HeaderLength();
    SizesAppend(h, f);
    SizesAppend(h + f, l);
    SizesAppend(h, DmxSchema(n));
    LengthOffset(n);
  }

  lemma DmxLayoutUnique(n: nat)
    ensures OrderedMaps.UniqueKeys(Layout(DmxSchema(n)))
  {
  }

  /** The schema `create` decodes with: the shared schema behind the header, its
      `dmxData` record set to the length read from the datagram. */
  function CreateSchema(shared: nat, n: nat): seq<(Key, Field)> {
    OrderedMaps.Put(OrderedMaps.FromList(Layout(DmxSchema(shared))), DmxData, ArrayField(n, 1, LE))
  }

  lemma CreateSchemaIs(shared: nat, n: nat)
    ensures CreateSchema(shared, n) == Layout(DmxSchema(n))
  {
    DmxLayoutUnique(shared);
    OrderedMaps.FromListUnique(Layout(DmxSchema(shared)));
    var l := Layout(DmxSchema(shared));
    OrderedMaps.IndexOfAt(l, DmxData, 8);
  }

  /** `create`: null for another kind of datagram or a zero (or missing) data length, else
      the payload of a packet built from the datagram decoded with that length. */
  function Create(data: seq<byte>, shared: nat): (r: Result<Option<Payload<Key>>>)
    ensures Is(data) == Ok(false) ==> r == Ok(None)
    ensures GetDmxDataLen(data, shared) == Ok(Some(0)) ==> r == Ok(None)
  {
    match Is(data)
    case Err(e) => Err(e)
    case Ok(isDmx) =>
      if !isDmx then Ok(None)
      else match GetDmxDataLen(data, shared) {
        case Err(e) => Err(e)
        case Ok(len) =>
          if len.None? || len.value == 0 then Ok(None)
          else match Decoded(data, CreateSchema(shared, len.value)).0 {
            case Err(e) => Err(e)
            case Ok(d) =>
              if !(Typed(d) && ArrayLength(LengthOf(d))) then Err(RangeError)
              else Ok(Some(DmxPayload(d)))
          }
      }
  }

  // ---------------------------------------------------------------- round trip

  lemma Records(n: nat)
    ensures OneByteArrays(DmxSchema(n)) && OrderedMaps.UniqueKeys(DmxSchema(n))
    ensures OrderedMaps.Apart(HeaderSchema(), DmxSchema(n))
  {
  }

  lemma DefaultsMatch(n: nat)
    requires n < 0x1_0000
    ensures Matches(DefaultEntries(n), DmxSchema(n))
  {
  }

  lemma DefaultsRecoverable(n: nat)
    requires n < 0x1_0000
    ensures AllRecoverable(DmxDefaults(n), DmxSchema(n))
    ensures forall k :: k in DmxDefaults(n) ==> k in KeysOf(DmxSchema(n))
  {
    Records(n);
    DefaultsMatch(n);
    ObjectMatches(DefaultEntries(n), DmxSchema(n));
  }

  lemma Shape(n: nat)
    requires n < 0x1_0000
    ensures PacketShape(OP_DMX, DmxDefaults(n), DmxSchema(n))
  {
    Records(n);
    DefaultsRecoverable(n);
    ShapeOf(OP_DMX, DmxDefaults(n), DmxSchema(n));
  }

  /** Overrides `new Dmx` can take and `create` gives back: typed, with a length that
      fits the length field, each value recovered by its field, no header fields. */
  ghost predicate DmxOverride(o: Payload<Key>) {
    Typed(o) && 0 <= LengthOf(o) < 0x1_0000 && Override(o, DmxSchema(LengthOf(o)))
  }

  /** Every ArtDmx built from fitting overrides encodes, decodes back to its payload, and
      carries its length big-endian in bytes 16 and 17. */
  lemma RoundTrip(o: Payload<Key>)
    requires DmxOverride(o)
    ensures Encoded(DmxPayload(o), Layout(DmxSchema(LengthOf(o)))).Ok?
    ensures var b := Encoded(DmxPayload(o), Layout(DmxSchema(LengthOf(o)))).value;
      Decoded(b, Layout(DmxSchema(LengthOf(o)))) == (Ok(DmxPayload(o)), b) &&
      |b| == 18 + LengthOf(o) && b[16..18] == ToBytes(LengthOf(o), 2, BE)
  {
    var n := LengthOf(o);
    Shape(n);
    PayloadIs(o);
    PacketRoundTrip(OP_DMX, DmxDefaults(n), o, DmxSchema(n));
    var p := DmxPayload(o);
    PayloadFields(o);
    LayoutSplit(n);
    SerializeAt(p, HeaderSchema() + Front(), Length, NumberField(2, BE), [(DmxData, ArrayField(n, 1, LE))]);
  }

  /** The bytes at 16 and 17 of an ArtDmx datagram are what `getDmxDataLen` reads. */
  lemma ReadLength(b: seq<byte>, n: nat, shared: nat)
    requires n < 0x1_0000 && Is(b) == Ok(true) && |b| >= 18 && b[16..18] == ToBytes(n, 2, BE)
    ensures GetDmxDataLen(b, shared) == Ok(Some(n))
  {
    ByteOrder.RoundTrip(n, 2, BE);
    TwoBytes(ToBytes(n, 2, BE));
    assert b[16] == b[16..18][0] && b[17] == b[16..18][1];
  }

  /** `getDmxDataLen` of an encoded ArtDmx is its length. */
  lemma EncodedDataLen(o: Payload<Key>, shared: nat)
    requires DmxOverride(o)
    ensures Encoded(DmxPayload(o), Layout(DmxSchema(LengthOf(o)))).Ok?
    ensures var b := Encoded(DmxPayload(o), Layout(DmxSchema(LengthOf(o)))).value;
      Is(b) == Ok(true) && GetDmxDataLen(b, shared) == Ok(Some(LengthOf(o)))
  {
    var n := LengthOf(o);
    var p := DmxPayload(o);
    RoundTrip(o);
    var b := Encoded(p, Layout(DmxSchema(n))).value;
    PayloadHeader(o);
    EncodedIsOp(p, DmxSchema(n), OP_DMX);
    assert Is(b) == Ok(true);
    ReadLength(b, n, shared);
  }

  /** The payload of a packet is a fixed point of `new Dmx`. */
  lemma Rebuilt(o: Payload<Key>)
    requires Typed(o) && ArrayLength(LengthOf(o))
    ensures Typed(DmxPayload(o)) && LengthOf(DmxPayload(o)) == LengthOf(o)
    ensures DmxPayload(DmxPayload(o)) == DmxPayload(o)
  {
    var n := LengthOf(o);
    var p := DmxPayload(o);
    PayloadFields(o);
    DefaultValues(n);
    PayloadIs(p);
    WithHeaderIdempotent(OP_DMX, DmxDefaults(n), p);
  }

  /** `create` of an encoded ArtDmx of length at least 1 rebuilds it, so it re-encodes to
      the same bytes. */
  lemma CreateOfEncoded(o: Payload<Key>, shared: nat)
    requires DmxOverride(o) && LengthOf(o) > 0
    ensures Encoded(DmxPayload(o), Layout(DmxSchema(LengthOf(o)))).Ok?
    ensures Create(Encoded(DmxPayload(o), Layout(DmxSchema(LengthOf(o)))).value, shared) == Ok(Some(DmxPayload(o)))
  {
    var n := LengthOf(o);
    var p := DmxPayload(o);
    RoundTrip(o);
    EncodedDataLen(o, shared);
    CreateSchemaIs(shared, n);
    Rebuilt(o);
    var b := Encoded(p, Layout(DmxSchema(n))).value;
    assert Decoded(b, CreateSchema(shared, n)).0 == Ok(p);
  }

  /** An ArtDmx of length 0 is never rebuilt: `create` returns null for it. */
  lemma CreateOfEmpty(o: Payload<Key>, shared: nat)
    requires DmxOverride(o) && LengthOf(o) == 0
    ensures Encoded(DmxPayload(o), Layout(DmxSchema(0))).Ok?
    ensures Create(Encoded(DmxPayload(o), Layout(DmxSchema(0))).value, shared) == Ok(None)
  {
    EncodedDataLen(o, shared);
  }

  // ---------------------------------------------------------------- setChannel at `length`

  /** Fields that do not include k still write after k is changed. */
  lemma WritableAway(p: Payload<Key>, fields: seq<(Key, Field)>, k: Key, v: Value)
    requires AllWritable(p, fields) && forall i :: 0 <= i < |fields| ==> fields[i].0 != k
    ensures AllWritable(p[k := v], fields)
  {
  }

  /** No record before the data is the data record. */
  lemma PrefixApartFromData(n: nat)
    ensures forall i :: 0 <= i < |Prefix()| ==> Prefix()[i].0 != DmxData
  {
    var l := Layout(DmxSchema(n));
    LayoutSplit(n);
    DmxLayoutUnique(n);
    assert l[8].0 == DmxData;
    forall i | 0 <= i < |Prefix()| ensures Prefix()[i].0 != DmxData {
      assert Prefix()[i] == l[i];
    }
  }

  /** On a packet whose `dmxData` has its `length` elements, `setChannel(length, v)` for a
      length up to 512 passes the check, grows the array by one, and the next `encode`
      throws a RangeError because the array runs past the end of the buffer. */
  lemma ChannelAtLengthBreaksEncode(p: Payload<Key>, v: int)
    requires Complete(p) && 0 <= p[Length].n <= DMX_CHANNEL_MAX && |p[DmxData].a| == p[Length].n
    requires AllWritable(p, Prefix())
    ensures var n := p[Length].n;
      ChannelWrite(p[DmxData].a, n, n, v).Ok? &&
      Encoded(p[DmxData := Arr(ChannelWrite(p[DmxData].a, n, n, v).value)], Layout(DmxSchema(n))) == Err(RangeError)
  {
    var n := p[Length].n;
    var w := ChannelWrite(p[DmxData].a, n, n, v).value;
    assert |w| == n + 1;
    var q := p[DmxData := Arr(w)];
    assert AllWritable(q, Prefix()) by {
      PrefixApartFromData(n);
      WritableAway(p, Prefix(), DmxData, Arr(w));
    }
    assert Layout(DmxSchema(n)) == Prefix() + [(DmxData, ArrayField(n, 1, LE))] by {
      PrefixSplit(n);
    }
    assert PackedSize(Prefix()) == 18 && CalcBytes(Layout(DmxSchema(n))) == 18 + n by {
      LayoutSplit(n);
    }
    ShortBufferFails(q, Prefix(), [(DmxData, ArrayField(n, 1, LE))], 18 + n);
  }

  /** Fields at the front of recoverable fields write. */
  lemma WritablePrefix(p: Payload<Key>, a: seq<(Key, Field)>, b: seq<(Key, Field)>)
    requires AllRecoverable(p, a + b)
    ensures AllWritable(p, a)
  {
    forall i | 0 <= i < |a| ensures a[i].0 in p && Writable(p[a[i].0], a[i].1) {
      assert (a + b)[i] == a[i];
    }
  }

  /** The default packet: `setChannel(512, 255)` is accepted and the packet no longer
      encodes. */
  lemma DefaultChannel512()
    ensures var p := DmxPayload(map[]);
      DmxData in p && p[DmxData].Arr? && ChannelWrite(p[DmxData].a, 512, 512, 255).Ok? &&
      Encoded(p[DmxData := Arr(ChannelWrite(p[DmxData].a, 512, 512, 255).value)], Layout(DmxSchema(512))) == Err(RangeError)
  {
    var p := DmxPayload(map[]);
    PayloadIs(map[]);
    PayloadFields(map[]);
    PayloadZeros(map[]);
    assert DmxDefaults(512) + map[] == DmxDefaults(512);
    Shape(512);
    LayoutSplit(512);
    WritablePrefix(p, Prefix(), [(DmxData, ArrayField(512, 1, LE))]);
    ChannelAtLengthBreaksEncode(p, 255);
  }

  /** The check `setChannel` evidently means: the clamped channel must be an index below
      `length`. */
  function ChannelWriteInRange(data: seq<int>, length: int, channel: int, value: int): (r: Result<seq<int>>)
    ensures r.Err? <==> ClampToDmxRange(channel, value).0 >= length
  {
    var (c, v) := ClampToDmxRange(channel, value);
    if c >= length then Err(ChannelAboveLength) else Ok(Assign(data, c, v))
  }

  /** With that check `dmxData` keeps its `length` elements, and the channel reads back
      the clamped value. */
  lemma InRangeKeepsLength(data: seq<int>, channel: int, value: int)
    requires ChannelWriteInRange(data, |data|, channel, value).Ok?
    ensures var r := ChannelWriteInRange(data, |data|, channel, value).value;
      |r| == |data| && r[ClampToDmxRange(channel, value).0] == ClampToDmxRange(channel, value).1 &&
      forall j :: 0 <= j < |data| && j != ClampToDmxRange(channel, value).0 ==> r[j] == data[j]
  {
  }

  // ---------------------------------------------------------------- the package's tests

  /** The test payload: net 6, subnet 1, sequence 2, physical 3, 16 channels at `level`,
      listed in schema order. The package's tests use the levels 255 and 0; the lemmas
      below hold for every level. */
  function TestPayload(level: byte): Payload<Key> {
    Object(TestEntries(level))
  }

  function TestEntries(level: byte): seq<(Key, Value)> {
    [(ProtoVersion, Num(PROTOCOL_VERSION)), (Sequence, Num(2)), (Physical, Num(3)), (SubNet, Num(1)),
     (Net, Num(6)), (Length, Num(16)), (DmxData, Arr(seq(16, _ => level as int)))]
  }

  /** The snapshot: the header, the fields in front of the data, and 16 levels. */
  function TestFrame(level: byte): seq<byte> {
    [65, 114, 116, 45, 78, 101, 116, 0, 0, 80, 0, 14, 2, 3, 1, 6, 0, 16] + seq(16, _ => level)
  }

  lemma TestValues(level: byte)
    ensures Complete(TestPayload(level))
    ensures var o := TestPayload(level);
      o[ProtoVersion] == Num(14) && o[Sequence] == Num(2) && o[Physical] == Num(3) && o[SubNet] == Num(1) &&
      o[Net] == Num(6) && o[Length] == Num(16) && o[DmxData] == Arr(seq(16, _ => level as int))
    ensures Typed(TestPayload(level)) && LengthOf(TestPayload(level)) == 16
    ensures forall k :: k in TestPayload(level) ==> k in DmxKeys()
  {
    ObjectValues(TestEntries(level));
    ObjectKeys(TestEntries(level));
  }

  lemma TestMatches(level: byte)
    ensures Matches(TestEntries(level), DmxSchema(16))
  {
  }

  /** The test payload names every field, each with a value that survives a round trip,
      so it overrides every default. */
  lemma TestOverride(level: byte)
    ensures DmxOverride(TestPayload(level)) && LengthOf(TestPayload(level)) == 16
    ensures DmxPayload(TestPayload(level)) == WithHeader(OP_DMX, TestPayload(level))
  {
    var o := TestPayload(level);
    TestValues(level);
    Records(16);
    TestMatches(level);
    ObjectMatches(TestEntries(level), DmxSchema(16));
    OverrideOf(o, DmxSchema(16));
    DefaultsRecoverable(16);
    FullOverride(DmxDefaults(16), o, DmxSchema(16));
    PayloadIs(o);
  }

  /** The package's snapshot test: the test packet encodes to the 34-byte frame. */
  lemma TestSnapshot(level: byte)
    ensures Typed(TestPayload(level)) && LengthOf(TestPayload(level)) == 16
    ensures Encoded(DmxPayload(TestPayload(level)), Layout(DmxSchema(16))) == Ok(TestFrame(level))
  {
    TestOverride(level);
    TestValues(level);
    var p := DmxPayload(TestPayload(level));
    PayloadIs(TestPayload(level));
    Shape(16);
    PacketRoundTrip(OP_DMX, DmxDefaults(16), TestPayload(level), DmxSchema(16));
    SnapshotImage(p, level);
  }

  lemma WordBytes()
    ensures ToBytes(14, 2, BE) == [0, 14] && ToBytes(16, 2, BE) == [0, 16]
  {
  }

  /** The image of the records between the header and the data. */
  lemma FrontImage(p: Payload<Key>)
    requires ProtoVersion in p && p[ProtoVersion] == Num(14) && Sequence in p && p[Sequence] == Num(2)
    requires Physical in p && p[Physical] == Num(3) && SubNet in p && p[SubNet] == Num(1)
    requires Net in p && p[Net] == Num(6) && Length in p && p[Length] == Num(16)
    ensures AllWritable(p, Front() + [(Length, NumberField(2, BE))])
    ensures Serialize(p, Front() + [(Length, NumberField(2, BE))], false) == [0, 14, 2, 3, 1, 6, 0, 16]
  {
    var f := Front() + [(Length, NumberField(2, BE))];
    assert AllWritable(p, f);
    WordBytes();
    assert f[5..][1..] == [];
    assert Serialize(p, f[5..], false) == [0, 16];
    assert f[4..][1..] == f[5..];
    assert Serialize(p, f[4..], false) == [6, 0, 16];
    assert f[3..][1..] == f[4..];
    assert Serialize(p, f[3..], false) == [1, 6, 0, 16];
    assert f[2..][1..] == f[3..];
    assert Serialize(p, f[2..], false) == [3, 1, 6, 0, 16];
    assert f[1..][1..] == f[2..];
    assert Serialize(p, f[1..], false) == [2, 3, 1, 6, 0, 16];
  }

  /** The image of the test levels. */
  lemma DataImage(p: Payload<Key>, level: byte)
    requires DmxData in p && p[DmxData] == Arr(seq(16, _ => level as int))
    ensures AllWritable(p, [(DmxData, ArrayField(16, 1, LE))])
    ensures Serialize(p, [(DmxData, ArrayField(16, 1, LE))], false) == seq(16, _ => level)
  {
    var d := [(DmxData, ArrayField(16, 1, LE))];
    var a: seq<int> := seq(16, _ => level as int);
    assert AllWritable(p, d);
    IntsOfBytes(a, LE);
    var bytes := ArrayBytes(a, 1, LE);
    assert forall i :: 0 <= i < 16 ==> bytes[i] as int == Ints(bytes)[i];
    assert bytes == seq(16, _ => level);
    assert Serialize(p, d, false) == Image(p[DmxData], d[0].1) + Serialize(p, d[1..], false);
    assert Image(p[DmxData], d[0].1) == bytes + Zeros(0);
  }

  lemma HeaderBytes()
    ensures ArtNetId() + [0] + ToBytes(OP_DMX, 2, LE) == [65, 114, 116, 45, 78, 101, 116, 0, 0, 80]
  {
  }

  lemma SnapshotImage(p: Payload<Key>, level: byte)
    requires ID in p && p[ID] == Str(ArtNetId()) && OpCode in p && p[OpCode] == Num(OP_DMX)
    requires ProtoVersion in p && p[ProtoVersion] == Num(14) && Sequence in p && p[Sequence] == Num(2)
    requires Physical in p && p[Physical] == Num(3) && SubNet in p && p[SubNet] == Num(1)
    requires Net in p && p[Net] == Num(6) && Length in p && p[Length] == Num(16)
    requires DmxData in p && p[DmxData] == Arr(seq(16, _ => level as int))
    requires AllWritable(p, Layout(DmxSchema(16)))
    ensures Serialize(p, Layout(DmxSchema(16)), false) == TestFrame(level)
  {
    var f := Front() + [(Length, NumberField(2, BE))];
    var d := [(DmxData, ArrayField(16, 1, LE))];
    PrefixSplit(16);
    HeaderImage(p, OP_DMX);
    HeaderBytes();
    FrontImage(p);
    SerializeAppend(p, HeaderSchema(), f, false);
    DataImage(p, level);
    SerializeAppend(p, Prefix(), d, false);
    FrameBytes(level);
  }

  lemma FrameBytes(level: byte)
    ensures ([65, 114, 116, 45, 78, 101, 116, 0, 0, 80] + [0, 14, 2, 3, 1, 6, 0, 16]) + seq(16, _ => level) == TestFrame(level)
  {
    assert [65, 114, 116, 45, 78, 101, 116, 0, 0, 80] + [0, 14, 2, 3, 1, 6, 0, 16]
        == [65, 114, 116, 45, 78, 101, 116, 0, 0, 80, 0, 14, 2, 3, 1, 6, 0, 16];
  }

  lemma PrefixSplit(n: nat)
    ensures Layout(DmxSchema(n)) == Prefix() + [(DmxData, ArrayField(n, 1, LE))]
    ensures Prefix() == HeaderSchema() + (Front() + [(Length, NumberField(2, BE))])
  {
  }

  function TestPacket(level: byte): Payload<Key> {
    WithHeader(OP_DMX, TestPayload(level))
  }

  /** What the encode-decode test relies on: the packet encodes, decodes to itself, its
      data length reads 16, and it is a fixed point of `new Dmx`. */
  lemma TestPacketFacts(level: byte)
    ensures Typed(TestPayload(level)) && LengthOf(TestPayload(level)) == 16
    ensures DmxPayload(TestPayload(level)) == TestPacket(level)
    ensures Encoded(TestPacket(level), Layout(DmxSchema(16))).Ok?
    ensures var b := Encoded(TestPacket(level), Layout(DmxSchema(16))).value;
      Decoded(b, Layout(DmxSchema(16))) == (Ok(TestPacket(level)), b) && GetDmxDataLen(b, 16) == Ok(Some(16))
    ensures Complete(TestPacket(level)) && LengthOf(TestPacket(level)) == 16
    ensures DmxPayload(TestPacket(level)) == TestPacket(level)
    ensures TestPacket(level)[DmxData] == Arr(seq(16, _ => level as int))
    ensures TestPacket(level)[Net] == Num(6) && TestPacket(level)[SubNet] == Num(1)
  {
    TestOverride(level);
    TestValues(level);
    EncodedDataLen(TestPayload(level), 16);
    RoundTrip(TestPayload(level));
    Rebuilt(TestPayload(level));
  }

  /** The package's encode-decode test: the decoded datagram is the header plus the test
      payload, its data length reads 16, and a packet built from it has channel 5 at the
      test level, net 6 and subnet 1. */
  method TestEncodeDecode(level: byte)
    returns (decoded: Result<Payload<Key>>, len: Result<Option<nat>>, channel5: Result<Option<int>>, net: int, subNet: int)
    ensures decoded == Ok(WithHeader(OP_DMX, TestPayload(level)))
    ensures len == Ok(Some(16)) && channel5 == Ok(Some(level as int)) && net == 6 && subNet == 1
  {
    TestPacketFacts(level);
    var packet := new Dmx(TestPayload(level));
    var udp := packet.Encode();
    var bytes := udp.value;
    var buffer := BufferFrom(bytes);
    decoded := packet.Decode(buffer);
    len := GetDmxDataLen(bytes, 16);
    var fromUdp := new Dmx(TestPacket(level));
    channel5 := fromUdp.GetChannelValue(5);
    net := fromUdp.GetNet();
    subNet := fromUdp.GetSubnet();
  }

  /** On a default packet whose data was set to three channels, `setChannel(10, 7)` opens
      holes at indices 3 to 9: channel 5 then reads `undefined`, channel 10 reads 7, and
      channel 2 still reads its level. */
  method GapReadsUndefined() returns (written: Outcome, gap: Result<Option<int>>, stored: Result<Option<int>>, kept: Result<Option<int>>)
    ensures written == Pass && gap == Ok(None) && stored == Ok(Some(7)) && kept == Ok(Some(3))
  {
    PayloadFields(map[]);
    var packet := new Dmx(map[]);
    assert ClampChannels([1, 2, 3]) == [1, 2, 3];
    var three := packet.SetChannels([1, 2, 3]);
    written, gap, stored, kept := StoreAfterThree(packet);
  }

  /** `setChannel(10, 7)` and three reads on a 512-channel packet holding three levels. */
  method StoreAfterThree(packet: Dmx) returns (written: Outcome, gap: Result<Option<int>>, stored: Result<Option<int>>, kept: Result<Option<int>>)
    requires packet.Valid() && packet.payload[Length] == Num(512)
    requires packet.payload[DmxData].a == [1, 2, 3] && packet.holes == {}
    modifies packet
    ensures written == Pass && gap == Ok(None) && stored == Ok(Some(7)) && kept == Ok(Some(3))
  {
    written := packet.SetChannel(10, 7);
    assert packet.holes == Gap(3, 10) && 5 in packet.holes && 10 !in packet.holes;
    gap := packet.GetChannelValue(5);
    stored := packet.GetChannelValue(10);
    kept := packet.GetChannelValue(2);
  }

  /** The package's create test: `create` on the encoded test packet gives a packet that
      encodes to the same datagram. */
  lemma TestCreate(level: byte)
    ensures Typed(TestPayload(level)) && LengthOf(TestPayload(level)) == 16
    ensures Encoded(DmxPayload(TestPayload(level)), Layout(DmxSchema(16))).Ok?
    ensures var udp := Encoded(DmxPayload(TestPayload(level)), Layout(DmxSchema(16))).value;
      Create(udp, 16) == Ok(Some(DmxPayload(TestPayload(level))))
  {
    TestOverride(level);
    TestValues(level);
    CreateOfEncoded(TestPayload(level), 16);
  }
}
