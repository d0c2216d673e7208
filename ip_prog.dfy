/** packages/artnet-packets/lib/ip-prog: ArtIpProg, the 24-byte request that reprograms a
    node's IP address, subnet mask, port and gateway. Every record after the protocol version
    is one byte. The schema literal of 23 records is written here as four consecutive slices,
    in the same order. */
module IpProgPacket {
  import opened Wrappers
  import opened ByteOrder
  import opened Schemas
  import opened Encoder
  import OrderedMaps
  import opened ArtNetPackets

  /** Records 1-5: the protocol version, the command byte and its fillers. */
  function Control(): seq<(Key, Field)> {
    [(ProtoVersion, NumberField(2, BE)), (Filler1, NumberField(1, BE)), (Filler2, NumberField(1, BE)),
     (Command, NumberField(1, BE)), (Filler4, NumberField(1, BE))]
  }

  /** Records 6-13: the IP address and the subnet mask, most significant octet first. */
  function Address(): seq<(Key, Field)> {
    [(ProgIpHi, NumberField(1, BE)), (ProgIp2, NumberField(1, BE)), (ProgIp1, NumberField(1, BE)),
     (ProgIpLo, NumberField(1, BE)), (ProgSmHi, NumberField(1, BE)), (ProgSm2, NumberField(1, BE)),
     (ProgSm1, NumberField(1, BE)), (ProgSmLo, NumberField(1, BE))]
  }

  /** Records 14-19: the port bytes and the default gateway. */
  function Gateway(): seq<(Key, Field)> {
    [(ProgPortHi, NumberField(1, BE)), (ProgPortLo, NumberField(1, BE)), (ProgDgHi, NumberField(1, BE)),
     (ProgDg2, NumberField(1, BE)), (ProgDg1, NumberField(1, BE)), (ProgDgLo, NumberField(1, BE))]
  }

  /** Records 20-23: four spare bytes. */
  function Spares(): seq<(Key, Field)> {
    [(Spare4, NumberField(1, BE)), (Spare5, NumberField(1, BE)), (Spare6, NumberField(1, BE)),
     (Spare7, NumberField(1, BE))]
  }

  /** `defaultSchema`. */
  function IpProgSchema(): seq<(Key, Field)> {
    Control() + Address() + Gateway() + Spares()
  }

  /** The constructor's defaults: command 0b11011111, IP 192.168.0.10, mask 255.255.255.0,
      gateway 192.168.0.1. The object literal's keys are distinct, so listing them in
      schema order gives the same object. */
  function IpProgDefaults(): Payload<Key> {
    Object(ControlDefaults() + AddressDefaults() + GatewayDefaults() + SparesDefaults())
  }

  function ControlDefaults(): seq<(Key, Value)> {
    [(ProtoVersion, Num(PROTOCOL_VERSION)), (Filler1, Num(0)), (Filler2, Num(0)),
     (Command, Num(0xdf)), (Filler4, Num(0))]
  }

  function AddressDefaults(): seq<(Key, Value)> {
    [(ProgIpHi, Num(192)), (ProgIp2, Num(168)), (ProgIp1, Num(0)), (ProgIpLo, Num(10)),
     (ProgSmHi, Num(255)), (ProgSm2, Num(255)), (ProgSm1, Num(255)), (ProgSmLo, Num(0))]
  }

  function GatewayDefaults(): seq<(Key, Value)> {
    [(ProgPortHi, Num(0)), (ProgPortLo, Num(0)), (ProgDgHi, Num(192)), (ProgDg2, Num(168)),
     (ProgDg1, Num(0)), (ProgDgLo, Num(1))]
  }

  function SparesDefaults(): seq<(Key, Value)> {
    [(Spare4, Num(0)), (Spare5, Num(0)), (Spare6, Num(0)), (Spare7, Num(0))]
  }

  /** The payload `new IpProgPacket(payload)` holds. */
  function IpProg(o: Payload<Key>): Payload<Key> {
    WithHeader(OP_IP_PROG, IpProgDefaults() + o)
  }

  function Is(data: seq<byte>): Result<bool> {
    IsOp(data, OP_IP_PROG)
  }

  function Create(data: seq<byte>): Result<Option<Payload<Key>>> {
    CreateFrom(data, OP_IP_PROG, IpProgDefaults(), IpProgSchema())
  }

  // ---------------------------------------------------------------- slice facts

  lemma ControlSums()
    ensures CalcFrom(Control(), 0) == 6 && PackedFrom(Control(), 0) == 6
  {
  }

  lemma ControlRecords()
    ensures OneByteArrays(Control()) && OrderedMaps.UniqueKeys(Control()) && OrderedMaps.Apart(HeaderSchema(), Control())
  {
  }

  lemma ControlMatches()
    ensures Matches(ControlDefaults(), Control())
  {
  }

  lemma AddressSums()
    ensures CalcFrom(Address(), 0) == 8 && PackedFrom(Address(), 0) == 8
  {
  }

  lemma AddressRecords()
    ensures OneByteArrays(Address()) && OrderedMaps.UniqueKeys(Address()) && OrderedMaps.Apart(HeaderSchema(), Address())
  {
  }

  lemma AddressMatches()
    ensures Matches(AddressDefaults(), Address())
  {
  }

  lemma GatewaySums()
    ensures CalcFrom(Gateway(), 0) == 6 && PackedFrom(Gateway(), 0) == 6
  {
  }

  lemma GatewayRecords()
    ensures OneByteArrays(Gateway()) && OrderedMaps.UniqueKeys(Gateway()) && OrderedMaps.Apart(HeaderSchema(), Gateway())
  {
  }

  lemma GatewayMatches()
    ensures Matches(GatewayDefaults(), Gateway())
  {
  }

  lemma SparesSums()
    ensures CalcFrom(Spares(), 0) == 4 && PackedFrom(Spares(), 0) == 4
  {
  }

  lemma SparesRecords()
    ensures OneByteArrays(Spares()) && OrderedMaps.UniqueKeys(Spares()) && OrderedMaps.Apart(HeaderSchema(), Spares())
  {
  }

  lemma SparesMatches()
    ensures Matches(SparesDefaults(), Spares())
  {
  }

  lemma ApartControlAddress()
    ensures OrderedMaps.Apart(Control(), Address())
  {
  }

  lemma ApartControlGateway()
    ensures OrderedMaps.Apart(Control(), Gateway())
  {
  }

  lemma ApartControlSpares()
    ensures OrderedMaps.Apart(Control(), Spares())
  {
  }

  lemma ApartAddressGateway()
    ensures OrderedMaps.Apart(Address(), Gateway())
  {
  }

  lemma ApartAddressSpares()
    ensures OrderedMaps.Apart(Address(), Spares())
  {
  }

  lemma ApartGatewaySpares()
    ensures OrderedMaps.Apart(Gateway(), Spares())
  {
  }

  // ---------------------------------------------------------------- the whole schema

  lemma ControlSizes()
    ensures CalcBytes(Control()) == PackedSize(Control()) == 6
  {
    ControlSums();
    Schemas.Sizes(Control(), 6, 6);
  }

  lemma AddressSizes()
    ensures CalcBytes(Address()) == PackedSize(Address()) == 8
  {
    AddressSums();
    Schemas.Sizes(Address(), 8, 8);
  }

  lemma GatewaySizes()
    ensures CalcBytes(Gateway()) == PackedSize(Gateway()) == 6
  {
    GatewaySums();
    Schemas.Sizes(Gateway(), 6, 6);
  }

  lemma SparesSizes()
    ensures CalcBytes(Spares()) == PackedSize(Spares()) == 4
  {
    SparesSums();
    Schemas.Sizes(Spares(), 4, 4);
  }

  /** The schema is 24 bytes, so the datagram is 34. */
  lemma Sizes()
    ensures CalcBytes(IpProgSchema()) == PackedSize(IpProgSchema()) == 24
    ensures CalcBytes(Layout(IpProgSchema())) == 34
  {
    ControlSizes(); AddressSizes(); GatewaySizes(); SparesSizes();
    var a, b, c, d := Control(), Address(), Gateway(), Spares();
    SizesAppend(a, b);
    SizesAppend(a + b, c);
    SizesAppend(a + b + c, d);
    SizesAppend(HeaderSchema(), IpProgSchema());
    HeaderLength();
  }

  /** 23 distinct keys, none of which is a header key. */
  lemma Records()
    ensures OneByteArrays(IpProgSchema()) && OrderedMaps.UniqueKeys(IpProgSchema())
    ensures OrderedMaps.Apart(HeaderSchema(), IpProgSchema())
  {
    ControlRecords(); AddressRecords(); GatewayRecords(); SparesRecords();
    ApartControlAddress(); ApartControlGateway(); ApartControlSpares();
    ApartAddressGateway(); ApartAddressSpares(); ApartGatewaySpares();
    var a, b, c, d := Control(), Address(), Gateway(), Spares();
    OneByteArraysAppend(a, b);
    OneByteArraysAppend(a + b, c);
    OneByteArraysAppend(a + b + c, d);
    OrderedMaps.UniqueAppend(a, b);
    OrderedMaps.ApartAppend(a, b, c);
    OrderedMaps.UniqueAppend(a + b, c);
    OrderedMaps.ApartAppend(a, b, d);
    OrderedMaps.ApartAppend(a + b, c, d);
    OrderedMaps.UniqueAppend(a + b + c, d);
    ApartFromHeader(a, b);
    ApartFromHeader(a + b, c);
    ApartFromHeader(a + b + c, d);
  }

  lemma DefaultsRecoverable()
    ensures AllRecoverable(IpProgDefaults(), IpProgSchema())
    ensures forall k :: k in IpProgDefaults() ==> k in KeysOf(IpProgSchema())
  {
    ControlMatches(); AddressMatches(); GatewayMatches(); SparesMatches();
    Records();
    var a, b, c, d := Control(), Address(), Gateway(), Spares();
    var da, db, dc := ControlDefaults(), AddressDefaults(), GatewayDefaults();
    MatchesAppend(da, a, db, b);
    MatchesAppend(da + db, a + b, dc, c);
    MatchesAppend(da + db + dc, a + b + c, SparesDefaults(), d);
    ObjectMatches(da + db + dc + SparesDefaults(), IpProgSchema());
  }

  lemma Shape()
    ensures PacketShape(OP_IP_PROG, IpProgDefaults(), IpProgSchema())
  {
    Records();
    DefaultsRecoverable();
    ShapeOf(OP_IP_PROG, IpProgDefaults(), IpProgSchema());
  }

  /** Every IpProg built from fitting overrides decodes back to its payload. */
  lemma RoundTrip(o: Payload<Key>)
    requires Fits(o, Layout(IpProgSchema()))
    ensures Encoded(IpProg(o), Layout(IpProgSchema())).Ok?
    ensures Decoded(Encoded(IpProg(o), Layout(IpProgSchema())).value, Layout(IpProgSchema())).0 == Ok(IpProg(o))
  {
    Shape();
    PacketRoundTrip(OP_IP_PROG, IpProgDefaults(), o, IpProgSchema());
  }

  /** `create` of an encoded IpProg rebuilds it, so it re-encodes to the same bytes. */
  lemma CreateOfEncoded(o: Payload<Key>)
    requires Override(o, IpProgSchema())
    ensures Encoded(IpProg(o), Layout(IpProgSchema())).Ok?
    ensures Create(Encoded(IpProg(o), Layout(IpProgSchema())).value) == Ok(Some(IpProg(o)))
  {
    Shape();
    ArtNetPackets.CreateOfEncoded(OP_IP_PROG, IpProgDefaults(), o, IpProgSchema());
  }

  // ---------------------------------------------------------------- the package's test payload

  /** IP 10.11.12.13, mask 0.1.2.3, port byte 128, gateway 10.10.1.15. */
  function TestPayload(): Payload<Key> {
    Object(TestControl() + TestAddress() + TestGateway() + SparesDefaults())
  }

  function TestControl(): seq<(Key, Value)> {
    [(ProtoVersion, Num(PROTOCOL_VERSION)), (Filler1, Num(0)), (Filler2, Num(0)),
     (Command, Num(0xdf)), (Filler4, Num(0))]
  }

  function TestAddress(): seq<(Key, Value)> {
    [(ProgIpHi, Num(10)), (ProgIp2, Num(11)), (ProgIp1, Num(12)), (ProgIpLo, Num(13)),
     (ProgSmHi, Num(0)), (ProgSm2, Num(1)), (ProgSm1, Num(2)), (ProgSmLo, Num(3))]
  }

  function TestGateway(): seq<(Key, Value)> {
    [(ProgPortHi, Num(0)), (ProgPortLo, Num(128)), (ProgDgHi, Num(10)), (ProgDg2, Num(10)),
     (ProgDg1, Num(1)), (ProgDgLo, Num(15))]
  }

  lemma TestAddressMatches()
    ensures Matches(TestAddress(), Address())
  {
  }

  lemma TestGatewayMatches()
    ensures Matches(TestGateway(), Gateway())
  {
  }

  /** The test payload names every field, each with a value that survives a round trip. */
  lemma TestOverride()
    ensures Override(TestPayload(), IpProgSchema())
    ensures forall i :: 0 <= i < |IpProgSchema()| ==> IpProgSchema()[i].0 in TestPayload()
  {
    ControlMatches(); TestAddressMatches(); TestGatewayMatches(); SparesMatches();
    assert TestControl() == ControlDefaults();
    Records();
    var a, b, c, d := Control(), Address(), Gateway(), Spares();
    var ta, tb, tc := TestControl(), TestAddress(), TestGateway();
    MatchesAppend(ta, a, tb, b);
    MatchesAppend(ta + tb, a + b, tc, c);
    MatchesAppend(ta + tb + tc, a + b + c, SparesDefaults(), d);
    ObjectMatches(ta + tb + tc + SparesDefaults(), IpProgSchema());
    OverrideOf(TestPayload(), IpProgSchema());
  }

  /** The test payload overrides every default. */
  lemma TestMerge()
    ensures IpProg(TestPayload()) == WithHeader(OP_IP_PROG, TestPayload())
  {
    DefaultsRecoverable();
    TestOverride();
    FullOverride(IpProgDefaults(), TestPayload(), IpProgSchema());
  }

  /** The package's test: decoding the encoded test packet gives the header and the test
      payload. */
  lemma TestRoundTrip()
    ensures Encoded(IpProg(TestPayload()), Layout(IpProgSchema())).Ok?
    ensures Decoded(Encoded(IpProg(TestPayload()), Layout(IpProgSchema())).value, Layout(IpProgSchema())).0
         == Ok(WithHeader(OP_IP_PROG, TestPayload()))
  {
    TestOverride();
    TestMerge();
    RoundTrip(TestPayload());
  }
}
