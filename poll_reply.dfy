/** packages/artnet-packets/lib/poll-reply: ArtPollReply, a node's 226-byte description of
    itself after the header. Its schema is one literal of 31 records in the source; here it
    is written as four consecutive slices of that literal, in the same order. */
module PollReplyPacket {
  import opened Wrappers
  import opened ByteOrder
  import opened Schemas
  import opened Encoder
  import OrderedMaps
  import opened ArtNetPackets
  import PollPacket

  /** Records 1-9: addresses, versions and the first status byte. The port is the only
      little-endian number of the packet. */
  function Addressing(): seq<(Key, Field)> {
    [(IpAddress, ArrayField(4, 1, LE)), (Port, NumberField(2, LE)), (FirmwareVersion, NumberField(2, BE)),
     (NetSwitch, NumberField(1, BE)), (NetSubSwitch, NumberField(1, BE)), (Oem, NumberField(2, BE)),
     (UbeaVersion, NumberField(1, BE)), (Status1, NumberField(1, BE)), (EstaManufactorerCode, NumberField(2, BE))]
  }

  /** Records 10-13: the three name strings and the port count. */
  function Names(): seq<(Key, Field)> {
    [(ShortName, StringField(18)), (LongName, StringField(64)), (NodeReport, StringField(64)),
     (NumPorts, NumberField(2, BE))]
  }

  /** Records 14-22: per-port bytes. */
  function Ports(): seq<(Key, Field)> {
    [(PortTypes, ArrayField(4, 1, LE)), (GoodInput, ArrayField(4, 1, LE)), (GoodOutputA, ArrayField(4, 1, LE)),
     (SwIn, ArrayField(4, 1, LE)), (SwOut, ArrayField(4, 1, LE)), (AcnPriority, NumberField(1, BE)),
     (SwMacro, NumberField(1, BE)), (SwRemote, NumberField(1, BE)), (Spare, ArrayField(3, 1, LE))]
  }

  /** Records 23-31: style, MAC and bind addresses, later status bytes and the filler. */
  function Identity(): seq<(Key, Field)> {
    [(Style, NumberField(1, BE)), (MacAddress, ArrayField(6, 1, LE)), (BindIp, ArrayField(4, 1, LE)),
     (BindIndex, NumberField(1, BE)), (Status2, NumberField(1, BE)), (GoodOutputB, NumberField(1, BE)),
     (Status3, NumberField(1, BE)), (DefaultRespUID, ArrayField(6, 1, LE)), (Filler, ArrayField(15, 1, LE))]
  }

  /** `schemaDefault`. */
  function PollReplySchema(): seq<(Key, Field)> {
    Addressing() + Names() + Ports() + Identity()
  }

  /** The constructor's defaults, as an object literal in schema order. */
  function PollReplyDefaults(): Payload<Key> {
    Object(AddressingDefaults() + NamesDefaults() + PortsDefaults() + IdentityDefaults())
  }

  function AddressingDefaults(): seq<(Key, Value)> {
    [(IpAddress, Arr([0, 0, 0, 0])), (Port, Num(ARTNET_PORT)), (FirmwareVersion, Num(0xdead)),
     (NetSwitch, Num(0)), (NetSubSwitch, Num(0)), (Oem, Num(0xbeef)), (UbeaVersion, Num(0x11)),
     (Status1, Num(0xa7)), (EstaManufactorerCode, Num(0xfefe))]
  }

  function NamesDefaults(): seq<(Key, Value)> {
    [(ShortName, Str(Ascii("AN-Controller"))), (LongName, Str(Ascii("ArtNet-Controller"))),
     (NodeReport, Str(Ascii("Normal State"))), (NumPorts, Num(4))]
  }

  function PortsDefaults(): seq<(Key, Value)> {
    [(PortTypes, Arr([0xc8, 0x84, 0x81, 0xc2])), (GoodInput, Arr([1, 2, 3, 4])),
     (GoodOutputA, Arr([1, 2, 3, 4])), (SwIn, Arr([0, 0, 0, 0])), (SwOut, Arr([0, 0, 0, 0])),
     (AcnPriority, Num(0)), (SwMacro, Num(0)), (SwRemote, Num(0)), (Spare, Arr([0, 0, 0]))]
  }

  function IdentityDefaults(): seq<(Key, Value)> {
    [(Style, Num(0)), (MacAddress, Arr([0xff, 0xef, 0x1d, 0x32, 0xfa, 0xaa])), (BindIp, Arr([0, 0, 0, 0])),
     (BindIndex, Num(0)), (Status2, Num(0xff)), (GoodOutputB, Num(0)), (Status3, Num(0)),
     (DefaultRespUID, Arr([0, 0, 0, 0, 0, 0])), (Filler, Arr(seq(15, _ => 0)))]
  }

  /** The payload `new PollReply(payload)` holds. */
  function PollReply(o: Payload<Key>): Payload<Key> {
    WithHeader(OP_POLL_REPLY, PollReplyDefaults() + o)
  }

  function Is(data: seq<byte>): Result<bool> {
    IsOp(data, OP_POLL_REPLY)
  }

  function Create(data: seq<byte>): Result<Option<Payload<Key>>> {
    CreateFrom(data, OP_POLL_REPLY, PollReplyDefaults(), PollReplySchema())
  }

  // ---------------------------------------------------------------- slice facts

  lemma AddressingSums()
    ensures CalcFrom(Addressing(), 0) == 16 && PackedFrom(Addressing(), 0) == 16
  {
  }

  lemma AddressingRecords()
    ensures OneByteArrays(Addressing()) && OrderedMaps.UniqueKeys(Addressing()) && OrderedMaps.Apart(HeaderSchema(), Addressing())
  {
  }

  lemma AddressingMatches()
    ensures Matches(AddressingDefaults(), Addressing())
  {
  }

  lemma NamesSums()
    ensures CalcFrom(Names(), 0) == 148 && PackedFrom(Names(), 0) == 148
  {
  }

  lemma NamesRecords()
    ensures OneByteArrays(Names()) && OrderedMaps.UniqueKeys(Names()) && OrderedMaps.Apart(HeaderSchema(), Names())
  {
  }

  lemma DefaultTexts()
    ensures |Ascii("AN-Controller")| == 13 && 0 !in Ascii("AN-Controller")
    ensures |Ascii("ArtNet-Controller")| == 17 && 0 !in Ascii("ArtNet-Controller")
    ensures |Ascii("Normal State")| == 12 && 0 !in Ascii("Normal State")
  {
  }

  lemma NamesMatches()
    ensures Matches(NamesDefaults(), Names())
  {
    DefaultTexts();
  }

  lemma PortsSums()
    ensures CalcFrom(Ports(), 0) == 26 && PackedFrom(Ports(), 0) == 26
  {
  }

  lemma PortsRecords()
    ensures OneByteArrays(Ports()) && OrderedMaps.UniqueKeys(Ports()) && OrderedMaps.Apart(HeaderSchema(), Ports())
  {
  }

  lemma PortsMatches()
    ensures Matches(PortsDefaults(), Ports())
  {
  }

  lemma IdentitySums()
    ensures CalcFrom(Identity(), 0) == 36 && PackedFrom(Identity(), 0) == 36
  {
  }

  lemma IdentityRecords()
    ensures OneByteArrays(Identity()) && OrderedMaps.UniqueKeys(Identity()) && OrderedMaps.Apart(HeaderSchema(), Identity())
  {
  }

  lemma IdentityMatches()
    ensures Matches(IdentityDefaults(), Identity())
  {
  }

  lemma ApartAddressingNames()
    ensures OrderedMaps.Apart(Addressing(), Names())
  {
  }

  lemma ApartAddressingPorts()
    ensures OrderedMaps.Apart(Addressing(), Ports())
  {
  }

  lemma ApartAddressingIdentity()
    ensures OrderedMaps.Apart(Addressing(), Identity())
  {
  }

  lemma ApartNamesPorts()
    ensures OrderedMaps.Apart(Names(), Ports())
  {
  }

  lemma ApartNamesIdentity()
    ensures OrderedMaps.Apart(Names(), Identity())
  {
  }

  lemma ApartPortsIdentity()
    ensures OrderedMaps.Apart(Ports(), Identity())
  {
  }

  // ---------------------------------------------------------------- the whole schema

  lemma AddressingSizes()
    ensures CalcBytes(Addressing()) == PackedSize(Addressing()) == 16
  {
    AddressingSums();
    Schemas.Sizes(Addressing(), 16, 16);
  }

  lemma NamesSizes()
    ensures CalcBytes(Names()) == PackedSize(Names()) == 148
  {
    NamesSums();
    Schemas.Sizes(Names(), 148, 148);
  }

  lemma PortsSizes()
    ensures CalcBytes(Ports()) == PackedSize(Ports()) == 26
  {
    PortsSums();
    Schemas.Sizes(Ports(), 26, 26);
  }

  lemma IdentitySizes()
    ensures CalcBytes(Identity()) == PackedSize(Identity()) == 36
  {
    IdentitySums();
    Schemas.Sizes(Identity(), 36, 36);
  }

  /** The schema is 226 bytes, so the datagram is 236. */
  lemma Sizes()
    ensures CalcBytes(PollReplySchema()) == PackedSize(PollReplySchema()) == 226
    ensures CalcBytes(Layout(PollReplySchema())) == 236
  {
    AddressingSizes(); NamesSizes(); PortsSizes(); IdentitySizes();
    var a, b, c, d := Addressing(), Names(), Ports(), Identity();
    SizesAppend(a, b);
    SizesAppend(a + b, c);
    SizesAppend(a + b + c, d);
    SizesAppend(HeaderSchema(), PollReplySchema());
    HeaderLength();
  }

  /** One-byte arrays only, and 31 distinct keys none of which is a header key. */
  lemma Records()
    ensures OneByteArrays(PollReplySchema()) && OrderedMaps.UniqueKeys(PollReplySchema())
    ensures OrderedMaps.Apart(HeaderSchema(), PollReplySchema())
  {
    AddressingRecords(); NamesRecords(); PortsRecords(); IdentityRecords();
    ApartAddressingNames(); ApartAddressingPorts(); ApartAddressingIdentity();
    ApartNamesPorts(); ApartNamesIdentity(); ApartPortsIdentity();
    var a, b, c, d := Addressing(), Names(), Ports(), Identity();
    OneByteArraysAppend(a, b);
    OneByteArraysAppend(a + b, c);
    OneByteArraysAppend(a + b + c, d);
    OrderedMaps.UniqueAppend(a, b);
    OrderedMaps.ApartAppend(a, b, c);
    OrderedMaps.UniqueAppend(a + b, c);
    OrderedMaps.ApartAppend(a, b, d);
    OrderedMaps.ApartAppend(a + b, c, d);
    OrderedMaps.UniqueAppend(a + b + c, d);
    ApartFromHeader(a, b);
    ApartFromHeader(a + b, c);
    ApartFromHeader(a + b + c, d);
  }

  lemma DefaultsRecoverable()
    ensures AllRecoverable(PollReplyDefaults(), PollReplySchema())
    ensures forall k :: k in PollReplyDefaults() ==> k in KeysOf(PollReplySchema())
  {
    AddressingMatches(); NamesMatches(); PortsMatches(); IdentityMatches();
    Records();
    var a, b, c, d := Addressing(), Names(), Ports(), Identity();
    var da, db, dc := AddressingDefaults(), NamesDefaults(), PortsDefaults();
    MatchesAppend(da, a, db, b);
    MatchesAppend(da + db, a + b, dc, c);
    MatchesAppend(da + db + dc, a + b + c, IdentityDefaults(), d);
    ObjectMatches(da + db + dc + IdentityDefaults(), PollReplySchema());
  }

  lemma Shape()
    ensures PacketShape(OP_POLL_REPLY, PollReplyDefaults(), PollReplySchema())
  {
    Records();
    DefaultsRecoverable();
    ShapeOf(OP_POLL_REPLY, PollReplyDefaults(), PollReplySchema());
  }

  /** Every PollReply built from fitting overrides decodes back to its payload. */
  lemma RoundTrip(o: Payload<Key>)
    requires Fits(o, Layout(PollReplySchema()))
    ensures Encoded(PollReply(o), Layout(PollReplySchema())).Ok?
    ensures Decoded(Encoded(PollReply(o), Layout(PollReplySchema())).value, Layout(PollReplySchema())).0 == Ok(PollReply(o))
  {
    Shape();
    PacketRoundTrip(OP_POLL_REPLY, PollReplyDefaults(), o, PollReplySchema());
  }

  /** `create` of an encoded PollReply rebuilds it, so it re-encodes to the same bytes. */
  lemma CreateOfEncoded(o: Payload<Key>)
    requires Override(o, PollReplySchema())
    ensures Encoded(PollReply(o), Layout(PollReplySchema())).Ok?
    ensures Create(Encoded(PollReply(o), Layout(PollReplySchema())).value) == Ok(Some(PollReply(o)))
  {
    Shape();
    ArtNetPackets.CreateOfEncoded(OP_POLL_REPLY, PollReplyDefaults(), o, PollReplySchema());
  }

  // ---------------------------------------------------------------- the package's test payload

  function TestPayload(): Payload<Key> {
    Object(TestAddressing() + TestNames() + TestPorts() + TestIdentity())
  }

  function TestAddressing(): seq<(Key, Value)> {
    [(IpAddress, Arr([192, 168, 0, 1])), (Port, Num(ARTNET_PORT)), (FirmwareVersion, Num(0xdead)),
     (NetSwitch, Num(0)), (NetSubSwitch, Num(0)), (Oem, Num(0xbeef)), (UbeaVersion, Num(0x10)),
     (Status1, Num(0xa7)), (EstaManufactorerCode, Num(0xfefe))]
  }

  function TestNames(): seq<(Key, Value)> {
    [(ShortName, Str(Ascii("AN-Controller"))), (LongName, Str(Ascii("ArtNet-Controller"))),
     (NodeReport, Str(Ascii("Not Normal State"))), (NumPorts, Num(3))]
  }

  function TestPorts(): seq<(Key, Value)> {
    [(PortTypes, Arr([0xc8, 0x84, 0x81, 0xc2])), (GoodInput, Arr([1, 2, 3, 4])),
     (GoodOutputA, Arr([1, 2, 3, 4])), (SwIn, Arr([1, 2, 3, 4])), (SwOut, Arr([1, 2, 3, 4])),
     (AcnPriority, Num(4)), (SwMacro, Num(2)), (SwRemote, Num(1)), (Spare, Arr([1, 2, 3]))]
  }

  function TestIdentity(): seq<(Key, Value)> {
    [(Style, Num(1)), (MacAddress, Arr([0xff, 0xef, 0x1d, 0x32, 0xfa, 0xaa])), (BindIp, Arr([192, 168, 1, 1])),
     (BindIndex, Num(2)), (Status2, Num(0x6b)), (GoodOutputB, Num(1)), (Status3, Num(3)),
     (DefaultRespUID, Arr([128, 192, 222, 224, 228, 255])), (Filler, Arr(seq(15, _ => 0)))]
  }

  lemma TestTexts()
    ensures |Ascii("Not Normal State")| == 16 && 0 !in Ascii("Not Normal State")
  {
  }

  lemma TestAddressingMatches()
    ensures Matches(TestAddressing(), Addressing())
  {
  }

  lemma TestNamesMatches()
    ensures Matches(TestNames(), Names())
  {
    DefaultTexts();
    TestTexts();
  }

  lemma TestPortsMatches()
    ensures Matches(TestPorts(), Ports())
  {
  }

  lemma TestIdentityMatches()
    ensures Matches(TestIdentity(), Identity())
  {
  }

  /** The test payload names every field, each with a value that survives a round trip. */
  lemma TestOverride()
    ensures Override(TestPayload(), PollReplySchema())
    ensures forall i :: 0 <= i < |PollReplySchema()| ==> PollReplySchema()[i].0 in TestPayload()
  {
    TestAddressingMatches(); TestNamesMatches(); TestPortsMatches(); TestIdentityMatches();
    Records();
    var a, b, c, d := Addressing(), Names(), Ports(), Identity();
    var ta, tb, tc := TestAddressing(), TestNames(), TestPorts();
    MatchesAppend(ta, a, tb, b);
    MatchesAppend(ta + tb, a + b, tc, c);
    MatchesAppend(ta + tb + tc, a + b + c, TestIdentity(), d);
    ObjectMatches(ta + tb + tc + TestIdentity(), PollReplySchema());
    OverrideOf(TestPayload(), PollReplySchema());
  }

  /** The test payload overrides every default. */
  lemma TestMerge()
    ensures PollReply(TestPayload()) == WithHeader(OP_POLL_REPLY, TestPayload())
  {
    DefaultsRecoverable();
    TestOverride();
    FullOverride(PollReplyDefaults(), TestPayload(), PollReplySchema());
  }

  /** The package's test: decoding the encoded test packet gives the header and the test
      payload. */
  lemma TestRoundTrip()
    ensures Encoded(PollReply(TestPayload()), Layout(PollReplySchema())).Ok?
    ensures Decoded(Encoded(PollReply(TestPayload()), Layout(PollReplySchema())).value, Layout(PollReplySchema())).0
         == Ok(WithHeader(OP_POLL_REPLY, TestPayload()))
  {
    TestOverride();
    TestMerge();
    RoundTrip(TestPayload());
  }

  /** The package's test: `create` on the encoded test packet rebuilds it. */
  lemma TestCreate()
    ensures Encoded(PollReply(TestPayload()), Layout(PollReplySchema())).Ok?
    ensures Create(Encoded(PollReply(TestPayload()), Layout(PollReplySchema())).value) == Ok(Some(PollReply(TestPayload())))
  {
    TestOverride();
    CreateOfEncoded(TestPayload());
  }

  /** The package's test that an encoded ArtPoll is no ArtPollReply: `is` rejects it and
      `create` returns null. */
  lemma TestPollIsNotPollReply()
    ensures Encoded(PollPacket.PollPayload(map[]), Layout(PollPacket.PollSchema())).Ok?
    ensures var b := Encoded(PollPacket.PollPayload(map[]), Layout(PollPacket.PollSchema())).value;
      Is(b) == Ok(false) && Create(b) == Ok(None)
  {
    PollPacket.EncodedIsNoOther(map[], OP_POLL_REPLY, PollReplyDefaults(), PollReplySchema());
  }
}
