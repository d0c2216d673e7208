/** packages/artnet-packets/lib/sync: ArtSync, four bytes after the header. */
module SyncPacket {
  import opened Wrappers
  import opened ByteOrder
  import opened Schemas
  import opened Encoder
  import OrderedMaps
  import opened ArtNetPackets

  /** `schemaDefault`: the protocol version (big-endian) and two auxiliary bytes. */
  function SyncSchema(): seq<(Key, Field)> {
    [(ProtoVersion, NumberField(2, BE)), (Aux1, NumberField(1, BE)), (Aux2, NumberField(1, BE))]
  }

  function SyncDefaults(): Payload<Key> {
    Object(SyncDefaultEntries())
  }

  function SyncDefaultEntries(): seq<(Key, Value)> {
    [(ProtoVersion, Num(PROTOCOL_VERSION)), (Aux1, Num(0)), (Aux2, Num(0))]
  }

  /** The payload `new Sync(payload)` holds. */
  function Sync(o: Payload<Key>): Payload<Key> {
    WithHeader(OP_SYNC, SyncDefaults() + o)
  }

  function Is(data: seq<byte>): Result<bool> {
    IsOp(data, OP_SYNC)
  }

  function Create(data: seq<byte>): Result<Option<Payload<Key>>> {
    CreateFrom(data, OP_SYNC, SyncDefaults(), SyncSchema())
  }

  lemma Sizes()
    ensures CalcBytes(SyncSchema()) == PackedSize(SyncSchema()) == 4
    ensures CalcBytes(Layout(SyncSchema())) == 14
  {
    SizesAppend(HeaderSchema(), SyncSchema());
  }

  lemma Records()
    ensures OneByteArrays(SyncSchema()) && OrderedMaps.UniqueKeys(SyncSchema())
    ensures OrderedMaps.Apart(HeaderSchema(), SyncSchema())
  {
  }

  lemma DefaultsRecoverable()
    ensures AllRecoverable(SyncDefaults(), SyncSchema())
    ensures forall k :: k in SyncDefaults() ==> k in KeysOf(SyncSchema())
  {
    assert Matches(SyncDefaultEntries(), SyncSchema());
    Records();
    ObjectMatches(SyncDefaultEntries(), SyncSchema());
  }

  lemma Shape()
    ensures PacketShape(OP_SYNC, SyncDefaults(), SyncSchema())
  {
    Records();
    DefaultsRecoverable();
    ShapeOf(OP_SYNC, SyncDefaults(), SyncSchema());
  }

  /** Every Sync built from fitting overrides decodes back to its payload. */
  lemma RoundTrip(o: Payload<Key>)
    requires Fits(o, Layout(SyncSchema()))
    ensures Encoded(Sync(o), Layout(SyncSchema())).Ok?
    ensures Decoded(Encoded(Sync(o), Layout(SyncSchema())).value, Layout(SyncSchema())).0 == Ok(Sync(o))
  {
    Shape();
    PacketRoundTrip(OP_SYNC, SyncDefaults(), o, SyncSchema());
  }

  /** `create` of an encoded Sync rebuilds it, so it re-encodes to the same bytes. */
  lemma CreateOfEncoded(o: Payload<Key>)
    requires Override(o, SyncSchema())
    ensures Encoded(Sync(o), Layout(SyncSchema())).Ok?
    ensures Create(Encoded(Sync(o), Layout(SyncSchema())).value) == Ok(Some(Sync(o)))
  {
    Shape();
    ArtNetPackets.CreateOfEncoded(OP_SYNC, SyncDefaults(), o, SyncSchema());
  }

  function TestPayload(): Payload<Key> {
    Object(TestEntries())
  }

  function TestEntries(): seq<(Key, Value)> {
    [(ProtoVersion, Num(PROTOCOL_VERSION)), (Aux1, Num(1)), (Aux2, Num(2))]
  }

  /** The test payload names every field, each with a value that survives a round trip. */
  lemma TestOverride()
    ensures Override(TestPayload(), SyncSchema())
    ensures forall i :: 0 <= i < |SyncSchema()| ==> SyncSchema()[i].0 in TestPayload()
  {
    Records();
    assert Matches(TestEntries(), SyncSchema());
    ObjectMatches(TestEntries(), SyncSchema());
    OverrideOf(TestPayload(), SyncSchema());
  }

  /** The test payload overrides every default. */
  lemma TestMerge()
    ensures Sync(TestPayload()) == WithHeader(OP_SYNC, TestPayload())
  {
    DefaultsRecoverable();
    TestOverride();
    FullOverride(SyncDefaults(), TestPayload(), SyncSchema());
  }

  /** The package's test: decoding the encoded test packet gives the header and the test
      payload. */
  lemma TestRoundTrip()
    ensures Encoded(Sync(TestPayload()), Layout(SyncSchema())).Ok?
    ensures Decoded(Encoded(Sync(TestPayload()), Layout(SyncSchema())).value, Layout(SyncSchema())).0
         == Ok(WithHeader(OP_SYNC, TestPayload()))
  {
    TestOverride();
    TestMerge();
    RoundTrip(TestPayload());
  }

  /** The package's test: `create` on the encoded test packet rebuilds it. */
  lemma TestCreate()
    ensures Encoded(Sync(TestPayload()), Layout(SyncSchema())).Ok?
    ensures Create(Encoded(Sync(TestPayload()), Layout(SyncSchema())).value) == Ok(Some(Sync(TestPayload())))
  {
    TestOverride();
    CreateOfEncoded(TestPayload());
  }
}
