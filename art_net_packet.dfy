/** packages/artnet-packets/lib/common/art-net-packet and lib/constants: the header every
    Art-Net packet starts with ("Art-Net\0" and a little-endian OpCode, as in the Art-Net 4
    specification), how a datagram is recognised, and what every packet constructor and
    `create` share. */
module ArtNetPackets {
  import opened Wrappers
  import opened ByteOrder
  import opened Schemas
  import opened Encoder
  import OrderedMaps

  /** The payload field names of the library's packets. */
  datatype Key =
    // header
    | ID | OpCode
    // ArtDmx
    | ProtoVersion | Sequence | Physical | SubNet | Net | Length | DmxData
    // ArtPoll
    | Flags | DiagPriority | TargetPortAddressTop | TargetPortAddressBottom
    // ArtPollReply
    | IpAddress | Port | FirmwareVersion | NetSwitch | NetSubSwitch | Oem | UbeaVersion
    | Status1 | EstaManufactorerCode | ShortName | LongName | NodeReport | NumPorts
    | PortTypes | GoodInput | GoodOutputA | SwIn | SwOut | AcnPriority | SwMacro | SwRemote
    | Spare | Style | MacAddress | BindIp | BindIndex | Status2 | GoodOutputB | Status3
    | DefaultRespUID | Filler
    // ArtAddress
    | SwVideo | Command
    // ArtSync
    | Aux1 | Aux2
    // ArtDiagData
    | Filler1 | LogicalPort | Filler3 | Data
    // ArtCommand
    | ProtocolVersion | EstaManufactorer
    // ArtIpProg
    | Filler2 | Filler4 | ProgIpHi | ProgIp2 | ProgIp1 | ProgIpLo | ProgSmHi | ProgSm2
    | ProgSm1 | ProgSmLo | ProgPortHi | ProgPortLo | ProgDgHi | ProgDg2 | ProgDg1 | ProgDgLo
    | Spare4 | Spare5 | Spare6 | Spare7

  const PROTOCOL_VERSION: int := 14
  const ARTNET_PORT: int := 6454

  const OP_POLL: int := 0x2000
  const OP_POLL_REPLY: int := 0x2100
  const OP_DIAG_DATA: int := 0x2300
  const OP_DMX: int := 0x5000
  const OP_SYNC: int := 0x5200
  const OP_ADDRESS: int := 0x6000
  const OP_IP_PROG: int := 0xf800

  /** A string literal as the bytes `Buffer.write` stores for it (one byte per character,
      which is its UTF-8 encoding when it is ASCII). */
  function Ascii(s: string): (r: seq<byte>)
    ensures |r| == |s| && forall i :: 0 <= i < |s| ==> r[i] as int == s[i] as int % 256
  {
    seq(|s|, i requires 0 <= i < |s| => (s[i] as int % 256) as byte)
  }

  /** "Art-Net": the packet ID without its terminating NUL. */
  function ArtNetId(): seq<byte> { [0x41, 0x72, 0x74, 0x2d, 0x4e, 0x65, 0x74] }

  /** `headerSchema`: an 8-byte ID string and a 2-byte little-endian OpCode. */
  function HeaderSchema(): seq<(Key, Field)> {
    [(ID, StringField(8)), (OpCode, NumberField(2, LE))]
  }

  /** The records `new Schema([...headerSchema, ...packetSchema])` is built from. */
  function Layout(s: seq<(Key, Field)>): seq<(Key, Field)> {
    HeaderSchema() + s
  }

  /** The constructor's `{ID, opCode, ...packetPayload}`: the packet's own fields,
      including an `ID` or `opCode` it carries, win over the header defaults. */
  function WithHeader(op: int, payload: Payload<Key>): (r: Payload<Key>)
    ensures r.Keys == payload.Keys + {ID, OpCode}
    ensures forall k :: k in payload ==> r[k] == payload[k]
    ensures ID !in payload ==> r[ID] == Str(ArtNetId())
    ensures OpCode !in payload ==> r[OpCode] == Num(op)
  {
    map[ID := Str(ArtNetId()), OpCode := Num(op)] + payload
  }

  /** `getHeaderLength`: the ID record's length plus the opCode record's size; it throws
      when either is missing, the size is 0, or the ID record is not a string. */
  function GetHeaderLength(header: seq<(Key, Field)>): (r: Result<nat>)
    ensures r.Ok? <==> OrderedMaps.Get(header, ID).Some? && OrderedMaps.Get(header, ID).value.StringField?
                       && OrderedMaps.Get(header, OpCode).Some? && Span(OrderedMaps.Get(header, OpCode).value) != 0
    ensures r.Ok? ==> r.value == OrderedMaps.Get(header, ID).value.chars + Span(OrderedMaps.Get(header, OpCode).value)
  {
    match (OrderedMaps.Get(header, ID), OrderedMaps.Get(header, OpCode))
    case (Some(id), Some(op)) =>
      if Span(op) == 0 then Err(HeaderInvalid)
      else if !id.StringField? then Err(HeaderInvalid)
      else Ok(id.chars + Span(op))
    case _ => Err(HeaderInvalid)
  }

  /** The header is 10 bytes, and the packet's own fields start right after it. */
  lemma HeaderLength()
    ensures GetHeaderLength(HeaderSchema()) == Ok(10)
    ensures PackedSize(HeaderSchema()) == CalcBytes(HeaderSchema()) == 10
  {
    assert OrderedMaps.IndexOf(HeaderSchema(), ID) == Some(0);
    assert OrderedMaps.IndexOf(HeaderSchema(), OpCode) == Some(1);
  }

  /** `readPacketID`: the first seven bytes (`subarray` clamps a shorter buffer). */
  function ReadPacketID(buf: seq<byte>): (r: seq<byte>)
    ensures |buf| >= 7 ==> r == buf[..7]
    ensures |buf| < 7 ==> r == buf
  {
    Encoder.Clip(buf, 0, |ArtNetId()|)
  }

  /** `readPacketOpCode`: `readUInt16LE` at byte 8, which throws on a buffer shorter than 10. */
  function ReadPacketOpCode(buf: seq<byte>): (r: Result<nat>)
    ensures r.Err? <==> |buf| < 10
    ensures r.Ok? ==> r.value == buf[8] as int + 256 * buf[9] as int
  {
    if |buf| < |ArtNetId()| + 1 + 2 then Err(RangeError)
    else
      TwoBytes(buf[8..10]);
      Ok(FromBytes(buf[8..10], LE))
  }

  /** `isArtNetPacket`: false without a buffer, else whether the first seven bytes read
      "Art-Net"; the eighth byte is not looked at. `ArtNetPacket.is` is this test. */
  function IsArtNetPacket(data: Option<seq<byte>>): (r: bool)
    ensures r <==> data.Some? && |data.value| >= 7 && data.value[..7] == ArtNetId()
  {
    data.Some? && ReadPacketID(data.value) == ArtNetId()
  }

  /** The static `is` of a packet class: an Art-Net datagram with the given OpCode. Reading
      the OpCode throws for an Art-Net ID followed by fewer than three bytes. */
  function IsOp(data: seq<byte>, op: int): (r: Result<bool>)
    ensures r.Err? <==> |data| < 10 && IsArtNetPacket(Some(data))
    ensures r == Ok(true) <==> |data| >= 10 && data[..7] == ArtNetId() && data[8] as int + 256 * data[9] as int == op
  {
    if !IsArtNetPacket(Some(data)) then Ok(false)
    else match ReadPacketOpCode(data) {
      case Err(e) => Err(e)
      case Ok(code) => Ok(code == op)
    }
  }

  // ---------------------------------------------------------------- encoded packets

  lemma {:induction false} OneByteLayout(s: seq<(Key, Field)>)
    requires OneByteArrays(s)
    ensures OneByteArrays(Layout(s))
  {
    forall i | 0 <= i < |Layout(s)| && Layout(s)[i].1.ArrayField? ensures Layout(s)[i].1.size == 1 {
      assert i >= 2 && Layout(s)[i] == s[i - 2];
    }
  }

  /** The first ten bytes of an encoded packet are the header fields' image. */
  lemma EncodedHeader(p: Payload<Key>, s: seq<(Key, Field)>)
    requires AllWritable(p, HeaderSchema())
    requires Encoded(p, Layout(s)).Ok?
    ensures var b := Encoded(p, Layout(s)).value;
      |b| >= 10 && b[..10] == Serialize(p, HeaderSchema(), false)
  {
    var n := CalcBytes(Layout(s));
    SizesAppend(HeaderSchema(), s);
    HeaderLength();
    var h := HeaderSchema();
    EncodeFromImage([], p, h, n - 10);
    assert [] + Zeros(PackedSize(h) + (n - 10)) == Zeros(n);
    var mid := Serialize(p, h, false) + Zeros(n - 10);
    assert [] + Serialize(p, h, false) + Zeros(n - 10) == mid;
    assert EncodeFrom(Zeros(n), 0, p, h) == Ok(mid);
    EncodeFromAppend(Zeros(n), 0, p, h, s);
    assert Encoded(p, Layout(s)) == EncodeFrom(mid, 10, p, s);
    EncodeKeepsPrefix(mid, 10, p, s);
  }

  /** The header fields' image: "Art-Net", a NUL, then the OpCode little-endian. */
  lemma HeaderImage(p: Payload<Key>, op: int)
    requires 0 <= op < 0x1_0000
    requires ID in p && p[ID] == Str(ArtNetId()) && OpCode in p && p[OpCode] == Num(op)
    ensures AllWritable(p, HeaderSchema())
    ensures Serialize(p, HeaderSchema(), false) == ArtNetId() + [0] + ToBytes(op, 2, LE)
  {
    var h := HeaderSchema();
    assert AllWritable(p, h);
    assert h[1..][1..] == [];
  }

  /** An encoded packet starts with "Art-Net", a NUL and its OpCode, so the `is` of its
      own class accepts it and the `is` of every other class rejects it. */
  lemma EncodedIsOp(p: Payload<Key>, s: seq<(Key, Field)>, op: int)
    requires 0 <= op < 0x1_0000
    requires ID in p && p[ID] == Str(ArtNetId()) && OpCode in p && p[OpCode] == Num(op)
    requires Encoded(p, Layout(s)).Ok?
    ensures var b := Encoded(p, Layout(s)).value;
      |b| >= 10 && b[..8] == ArtNetId() + [0] && b[8] as int + 256 * b[9] as int == op
    ensures forall other :: IsOp(Encoded(p, Layout(s)).value, other) == Ok(other == op)
  {
    HeaderImage(p, op);
    EncodedHeader(p, s);
    var b := Encoded(p, Layout(s)).value;
    var opBytes := ToBytes(op, 2, LE);
    assert b[..10] == ArtNetId() + [0] + opBytes;
    assert b[..8] == ArtNetId() + [0];
    assert b[8..10] == opBytes;
    ByteOrder.RoundTrip(op, 2, LE);
    TwoBytes(opBytes);
    assert b[..7] == ArtNetId();
    IsOpOfHeader(b, op);
  }

  lemma IsOpOfHeader(b: seq<byte>, op: int)
    requires |b| >= 10 && b[..7] == ArtNetId() && b[8] as int + 256 * b[9] as int == op
    ensures forall other :: IsOp(b, other) == Ok(other == op)
  {
  }

  /** What a packet class's schema and defaults provide: an opcode of two bytes, byte
      arrays only, distinct keys, default values that survive a round trip, and no
      defaults for the header's own fields. */
  ghost predicate PacketShape(op: int, defaults: Payload<Key>, s: seq<(Key, Field)>) {
    0 <= op < 0x1_0000 && OneByteArrays(s) && OrderedMaps.UniqueKeys(Layout(s)) &&
    AllRecoverable(WithHeader(op, defaults), Layout(s)) &&
    (forall k :: k in defaults ==> k in KeysOf(Layout(s))) &&
    ID !in defaults && OpCode !in defaults
  }

  /** Overrides spread after the header are the same as overrides spread into the defaults. */
  lemma WithHeaderMerge(op: int, defaults: Payload<Key>, o: Payload<Key>)
    ensures WithHeader(op, defaults + o) == WithHeader(op, defaults) + o
  {
  }

  /** The layout's keys are the header's two and the packet schema's. */
  lemma LayoutKeys(s: seq<(Key, Field)>)
    ensures KeysOf(Layout(s)) == {ID, OpCode} + KeysOf(s)
  {
    KeysOfAppend(HeaderSchema(), s);
    assert ID in KeysOf(HeaderSchema()) && OpCode in KeysOf(HeaderSchema()) by {
      assert HeaderSchema()[0].0 == ID && HeaderSchema()[1].0 == OpCode;
    }
  }

  /** Overrides a packet class's constructor can take and `create` gives back: they fit
      the layout and leave the header fields to the class. */
  ghost predicate Override(o: Payload<Key>, s: seq<(Key, Field)>) {
    Fits(o, Layout(s)) && ID !in o && OpCode !in o
  }

  /** A packet built from defaults and overrides that fit the layout encodes, and its
      encoding decodes back to exactly its payload, leaving the buffer as it was. */
  lemma PacketRoundTrip(op: int, defaults: Payload<Key>, o: Payload<Key>, s: seq<(Key, Field)>)
    requires PacketShape(op, defaults, s)
    requires Fits(o, Layout(s))
    ensures var p := WithHeader(op, defaults + o);
      Encoded(p, Layout(s)).Ok? && Decoded(Encoded(p, Layout(s)).value, Layout(s)) == (Ok(p), Encoded(p, Layout(s)).value)
    ensures var p := WithHeader(op, defaults + o);
      AllWritable(p, Layout(s)) && Encoded(p, Layout(s)) == Ok(Serialize(p, Layout(s), false))
  {
    var base := WithHeader(op, defaults);
    WithHeaderMerge(op, defaults, o);
    LayoutKeys(s);
    MergeFits(base, o, Layout(s));
    OneByteLayout(s);
    RoundTripBytes(base + o, Layout(s));
  }

  /** A packet built from fitting overrides holds a recoverable value for every field. */
  lemma MergedRecoverable(op: int, defaults: Payload<Key>, o: Payload<Key>, s: seq<(Key, Field)>)
    requires PacketShape(op, defaults, s)
    requires Fits(o, Layout(s))
    ensures AllRecoverable(WithHeader(op, defaults + o), Layout(s))
  {
    WithHeaderMerge(op, defaults, o);
    LayoutKeys(s);
    MergeFits(WithHeader(op, defaults), o, Layout(s));
  }

  /** A packet field's value in a payload recoverable for the whole layout. */
  lemma FieldOfLayout(p: Payload<Key>, s: seq<(Key, Field)>, i: nat, k: Key, f: Field)
    requires AllRecoverable(p, Layout(s)) && i < |s| && s[i] == (k, f)
    ensures k in p && Recoverable(p[k], f)
  {
    assert Layout(s)[i + 2] == s[i];
  }

  /** Setting a packet field after the merge is overriding it before. */
  lemma SetAfterMerge(op: int, defaults: Payload<Key>, o: Payload<Key>, k: Key, v: Value)
    requires k != ID && k != OpCode
    ensures WithHeader(op, defaults + o)[k := v] == WithHeader(op, defaults + o[k := v])
  {
    var header := map[ID := Str(ArtNetId()), OpCode := Num(op)];
    UpdateAfterMerge(defaults, o, k, v);
    UpdateAfterMerge(header, defaults + o, k, v);
  }

  /** A map update after a merge is an update of the map merged last. */
  lemma UpdateAfterMerge<K, V>(a: map<K, V>, b: map<K, V>, k: K, v: V)
    ensures (a + b)[k := v] == a + b[k := v]
  {
    var l, r := (a + b)[k := v], a + b[k := v];
    assert l.Keys == r.Keys;
    forall key | key in l
      ensures l[key] == r[key]
    {
    }
  }

  /** Replacing a field's override by a value that survives the field keeps overrides fitting. */
  lemma OverrideSet(o: Payload<Key>, s: seq<(Key, Field)>, i: nat, v: Value)
    requires OrderedMaps.UniqueKeys(s) && OrderedMaps.Apart(HeaderSchema(), s)
    requires Override(o, s) && i < |s| && Recoverable(v, s[i].1)
    ensures Override(o[s[i].0 := v], s)
  {
    LayoutUnique(s);
    LayoutKeys(s);
    HeaderKeysApart(s);
    var l := Layout(s);
    assert l[i + 2] == s[i];
    var o' := o[s[i].0 := v];
    forall j | 0 <= j < |l| && l[j].0 in o' ensures Recoverable(o'[l[j].0], l[j].1) {
      if l[j].0 == s[i].0 {
        assert j == i + 2;
      }
    }
  }

  /** `PacketShape` from facts about the packet schema alone: byte arrays, distinct keys
      none of which is a header key, recoverable defaults for exactly schema keys. */
  lemma ShapeOf(op: int, defaults: Payload<Key>, s: seq<(Key, Field)>)
    requires 0 <= op < 0x1_0000
    requires OneByteArrays(s) && OrderedMaps.UniqueKeys(s) && OrderedMaps.Apart(HeaderSchema(), s)
    requires AllRecoverable(defaults, s) && forall k :: k in defaults ==> k in KeysOf(s)
    ensures PacketShape(op, defaults, s)
  {
    HeaderKeysApart(s);
    LayoutUnique(s);
    LayoutRecoverable(op, defaults, s);
    LayoutKeys(s);
  }

  lemma LayoutUnique(s: seq<(Key, Field)>)
    requires OrderedMaps.UniqueKeys(s) && OrderedMaps.Apart(HeaderSchema(), s)
    ensures OrderedMaps.UniqueKeys(Layout(s))
  {
    OrderedMaps.UniqueAppend(HeaderSchema(), s);
  }

  /** The header fields and defaults without header keys survive a round trip. */
  lemma LayoutRecoverable(op: int, defaults: Payload<Key>, s: seq<(Key, Field)>)
    requires 0 <= op < 0x1_0000 && ID !in defaults && OpCode !in defaults
    requires AllRecoverable(defaults, s)
    ensures AllRecoverable(WithHeader(op, defaults), Layout(s))
  {
    var p := WithHeader(op, defaults);
    forall i | 0 <= i < |Layout(s)| ensures Layout(s)[i].0 in p && Recoverable(p[Layout(s)[i].0], Layout(s)[i].1) {
      if i >= 2 { assert Layout(s)[i] == s[i - 2]; }
    }
  }

  /** Two slices of a schema that share no key with the header do not together either. */
  lemma ApartFromHeader(a: seq<(Key, Field)>, b: seq<(Key, Field)>)
    requires OrderedMaps.Apart(HeaderSchema(), a) && OrderedMaps.Apart(HeaderSchema(), b)
    ensures OrderedMaps.Apart(HeaderSchema(), a + b)
  {
    forall i, j | 0 <= i < |HeaderSchema()| && 0 <= j < |a + b| ensures HeaderSchema()[i].0 != (a + b)[j].0 {
      if j < |a| { assert (a + b)[j] == a[j]; } else { assert (a + b)[j] == b[j - |a|]; }
    }
  }

  lemma HeaderKeysApart(s: seq<(Key, Field)>)
    requires OrderedMaps.Apart(HeaderSchema(), s)
    ensures ID !in KeysOf(s) && OpCode !in KeysOf(s)
  {
    var h := HeaderSchema();
    assert h[0].0 == ID && h[1].0 == OpCode;
    forall i | 0 <= i < |s| ensures s[i].0 != ID && s[i].0 != OpCode {
      assert h[0].0 != s[i].0 && h[1].0 != s[i].0;
    }
  }

  /** Overrides that name only packet fields, each with a value its field recovers. */
  lemma OverrideOf(o: Payload<Key>, s: seq<(Key, Field)>)
    requires OrderedMaps.Apart(HeaderSchema(), s)
    requires AllRecoverable(o, s) && forall k :: k in o ==> k in KeysOf(s)
    ensures Override(o, s)
  {
    LayoutKeys(s);
    HeaderKeysApart(s);
    GivenRecoverable(o, s);
  }

  lemma GivenRecoverable(o: Payload<Key>, s: seq<(Key, Field)>)
    requires AllRecoverable(o, s) && ID !in o && OpCode !in o
    ensures forall i :: 0 <= i < |Layout(s)| && Layout(s)[i].0 in o ==> Recoverable(o[Layout(s)[i].0], Layout(s)[i].1)
  {
    forall i | 0 <= i < |Layout(s)| && Layout(s)[i].0 in o ensures Recoverable(o[Layout(s)[i].0], Layout(s)[i].1) {
      assert Layout(s)[0].0 == ID && Layout(s)[1].0 == OpCode;
      assert Layout(s)[i] == s[i - 2];
    }
  }

  /** Overrides that name every schema field replace all the defaults. */
  lemma FullOverride(defaults: Payload<Key>, o: Payload<Key>, s: seq<(Key, Field)>)
    requires forall k :: k in defaults ==> k in KeysOf(s)
    requires forall i :: 0 <= i < |s| ==> s[i].0 in o
    ensures defaults + o == o
  {
  }

  // ---------------------------------------------------------------- create

  /** The static `create` of a packet class with a fixed schema: null for a datagram of
      another kind, else the payload of a packet built from the decoded datagram. */
  function CreateFrom(data: seq<byte>, op: int, defaults: Payload<Key>, s: seq<(Key, Field)>): (r: Result<Option<Payload<Key>>>)
    ensures IsOp(data, op) == Ok(false) ==> r == Ok(None)
    ensures r.Ok? && r.value.Some? ==> IsOp(data, op) == Ok(true) && Decoded(data, OrderedMaps.FromList(Layout(s))).0.Ok?
  {
    match IsOp(data, op)
    case Err(e) => Err(e)
    case Ok(isOp) =>
      if !isOp then Ok(None)
      else match Decoded(data, OrderedMaps.FromList(Layout(s))).0 {
        case Err(e) => Err(e)
        case Ok(d) => Ok(Some(WithHeader(op, defaults + d)))
      }
  }

  /** The encoding of a packet is no packet of another OpCode: that class's `is` rejects it
      and its `create` returns null. */
  lemma EncodedIsNotOther(p: Payload<Key>, s: seq<(Key, Field)>, op: int, other: int,
                          defaults: Payload<Key>, t: seq<(Key, Field)>)
    requires 0 <= op < 0x1_0000 && other != op
    requires ID in p && p[ID] == Str(ArtNetId()) && OpCode in p && p[OpCode] == Num(op)
    requires Encoded(p, Layout(s)).Ok?
    ensures IsOp(Encoded(p, Layout(s)).value, other) == Ok(false)
    ensures CreateFrom(Encoded(p, Layout(s)).value, other, defaults, t) == Ok(None)
  {
    EncodedIsOp(p, s, op);
  }

  /** Building a packet from a payload that already holds every default and header key
      gives back that payload. */
  lemma WithHeaderIdempotent(op: int, defaults: Payload<Key>, p: Payload<Key>)
    requires ID in p && OpCode in p && forall k :: k in defaults ==> k in p
    ensures WithHeader(op, defaults + p) == p
  {
  }

  /** `create(encode(p))` rebuilds p, so it re-encodes to the same datagram. */
  lemma CreateOfEncoded(op: int, defaults: Payload<Key>, o: Payload<Key>, s: seq<(Key, Field)>)
    requires PacketShape(op, defaults, s) && Override(o, s)
    ensures var p := WithHeader(op, defaults + o);
      Encoded(p, Layout(s)).Ok? && CreateFrom(Encoded(p, Layout(s)).value, op, defaults, s) == Ok(Some(p))
  {
    var p := WithHeader(op, defaults + o);
    PacketRoundTrip(op, defaults, o, s);
    EncodedIsOp(p, s, op);
    OrderedMaps.FromListUnique(Layout(s));
    WithHeaderIdempotent(op, defaults, p);
  }
}
