/** packages/protocol/lib/protocol: the `Packet` base class every packet extends. */
module Protocol {
  import opened Wrappers
  import opened ByteOrder
  import opened Schemas
  import opened Encoder
  import OrderedMaps

  /** A packet: its payload and its own schema, built from the schema records. */
  class Packet<K(==)> {
    var payload: Payload<K>
    const schema: Schema<K>

    /** Dafny maps are values, so the stored payload is a copy (`structuredClone`). */
    constructor (payload: Payload<K>, packetSchema: seq<(K, Field)>)
      ensures this.payload == payload
      ensures fresh(schema) && schema.Valid() && schema.entries == OrderedMaps.FromList(packetSchema)
    {
      this.payload := payload;
      schema := new Schema(packetSchema);
    }

    method Encode() returns (r: Result<seq<byte>>)
      ensures r == Encoded(payload, schema.entries)
    {
      r := Encoder.Encode(payload, schema);
    }

    /** Decoding with the packet's own schema leaves the packet's payload alone. */
    method Decode(buffer: array<byte>) returns (r: Result<Payload<K>>)
      modifies buffer
      ensures (r, buffer[..]) == Decoded(old(buffer[..]), schema.entries)
      ensures payload == old(payload)
    {
      r := Encoder.Decode(buffer, schema);
    }
  }

  // The mixed number / array schema of the package's own encode-decode test.

  datatype TestKey =
    | ID | NumberField1b | NumberField2b | NumberField4b | NumberField2bBE | NumberField4bBE
    | ArrayField1b | ArrayField2bLe | ArrayField2bBe | Filler | Filler2 | ArrayField4bBe | ArrayField4bLe

  function TestSchema(): seq<(TestKey, Field)> {
    TestSchemaFront() + TestSchemaBack()
  }

  /** The fields before the first four-byte array; they fill the 40-byte buffer. */
  function TestSchemaFront(): seq<(TestKey, Field)> {
    [ (ID, StringField(5)),
      (NumberField1b, NumberField(1, BE)),
      (NumberField2b, NumberField(2, LE)),
      (NumberField4b, NumberField(4, LE)),
      (NumberField2bBE, NumberField(2, BE)),
      (NumberField4bBE, NumberField(4, BE)),
      (ArrayField1b, ArrayField(4, 1, LE)),
      (ArrayField2bLe, ArrayField(4, 2, LE)),
      (ArrayField2bBe, ArrayField(4, 2, BE)),
      (Filler, NumberField(1, BE)),
      (Filler2, NumberField(1, BE)) ]
  }

  function TestSchemaBack(): seq<(TestKey, Field)> {
    [ (ArrayField4bBe, ArrayField(4, 4, BE)),
      (ArrayField4bLe, ArrayField(4, 4, LE)) ]
  }

  /** "TEST" */
  function TestId(): seq<byte> { [0x54, 0x45, 0x53, 0x54] }

  function TestPayload(): Payload<TestKey> {
    map[ID := Str(TestId()), NumberField1b := Num(1), NumberField2b := Num(1024),
        NumberField4b := Num(123456), NumberField2bBE := Num(0xffdd), NumberField4bBE := Num(0xaabbccdd),
        ArrayField1b := Arr([0xea, 0xea, 0xea, 0xea]),
        ArrayField2bLe := Arr([0xfffe, 0xfffe, 0xfffe, 0xfffe]),
        ArrayField2bBe := Arr([0xfffe, 0xfffe, 0xfffe, 0xfffe]),
        Filler := Num(129), Filler2 := Num(138),
        ArrayField4bLe := Arr([0xfafbfcfd, 0xfafbfcfd, 0xfafbfcfd, 0xfafbfcfd]),
        ArrayField4bBe := Arr([0xfafbfcfd, 0xfafbfcfd, 0xfafbfcfd, 0xfafbfcfd])]
  }

  lemma FrontSums()
    ensures CalcFrom(TestSchemaFront(), 0) == 32 && PackedFrom(TestSchemaFront(), 0) == 40
  {
  }

  lemma FrontSizes()
    ensures CalcBytes(TestSchemaFront()) == 32 && PackedSize(TestSchemaFront()) == 40
  {
    FrontSums();
    Sizes(TestSchemaFront(), 32, 40);
  }

  lemma BackSizes()
    ensures CalcBytes(TestSchemaBack()) == 8 && PackedSize(TestSchemaBack()) == 32
  {
    Sizes(TestSchemaBack(), 8, 32);
  }

  lemma TestCalcBytes()
    ensures CalcBytes(TestSchema()) == 40
  {
    FrontSizes();
    BackSizes();
    SizesAppend(TestSchemaFront(), TestSchemaBack());
  }

  lemma TestPackedSize()
    ensures PackedSize(TestSchema()) == 72
  {
    FrontSizes();
    BackSizes();
    SizesAppend(TestSchemaFront(), TestSchemaBack());
  }

  lemma FrontRecoverable()
    ensures AllRecoverable(TestPayload(), TestSchemaFront())
  {
  }

  lemma BackRecoverable()
    ensures AllRecoverable(TestPayload(), TestSchemaBack())
  {
  }

  lemma TestRecoverable()
    ensures AllRecoverable(TestPayload(), TestSchema())
  {
    FrontRecoverable();
    BackRecoverable();
    AllRecoverableAppend(TestPayload(), TestSchemaFront(), TestSchemaBack());
  }

  lemma FrontAlignedAt()
    ensures AlignedAt(TestSchemaFront(), 0, 0)
  {
  }

  lemma FrontAligned()
    ensures AlignedFrom(TestSchemaFront(), 0)
  {
    FrontAlignedAt();
    Aligned(TestSchemaFront(), 0);
  }

  lemma BackAligned()
    ensures AlignedFrom(TestSchemaBack(), 40)
  {
    assert AlignedAt(TestSchemaBack(), 0, 40);
    Aligned(TestSchemaBack(), 40);
  }

  /** Every wide array of the test schema starts at a multiple of its element size. */
  lemma TestAligned()
    ensures AlignedFrom(TestSchema(), 0)
  {
    FrontAligned();
    BackAligned();
    FrontSizes();
    AlignedFromAppend(TestSchemaFront(), TestSchemaBack(), 0, 40);
  }

  lemma TestFrontWritable()
    ensures AllWritable(TestPayload(), TestSchemaFront())
  {
  }

  /** As written, `encode` of the test payload throws: the buffer holds 40 bytes, but
      the first four-byte array already starts at offset 40. */
  lemma TestEncodeFails()
    ensures Encoded(TestPayload(), TestSchema()) == Err(RangeError)
  {
    TestCalcBytes();
    FrontSizes();
    TestFrontWritable();
    ShortBufferFails(TestPayload(), TestSchemaFront(), TestSchemaBack(), 40);
  }

  /** The position of each key in the test schema. */
  function TestIndex(k: TestKey): (i: nat)
    ensures i < |TestSchema()| && TestSchema()[i].0 == k
  {
    match k
    case ID => 0
    case NumberField1b => 1
    case NumberField2b => 2
    case NumberField4b => 3
    case NumberField2bBE => 4
    case NumberField4bBE => 5
    case ArrayField1b => 6
    case ArrayField2bLe => 7
    case ArrayField2bBe => 8
    case Filler => 9
    case Filler2 => 10
    case ArrayField4bBe => 11
    case ArrayField4bLe => 12
  }

  lemma TestKeys()
    ensures forall k :: k in TestPayload() ==> k in KeysOf(TestSchema())
  {
    forall k | k in TestPayload() ensures k in KeysOf(TestSchema()) {
      var i := TestIndex(k);
      assert TestSchema()[i].0 == k;
    }
  }

  /** With the corrected size, the test's encode-decode round trip holds. */
  lemma TestRoundTripPacked()
    ensures EncodePacked(TestPayload(), TestSchema()).Ok?
    ensures DecodePacked(EncodePacked(TestPayload(), TestSchema()).value, TestSchema()).0 == Ok(TestPayload())
  {
    TestRecoverable();
    TestAligned();
    RoundTripPacked(TestPayload(), TestSchema());
    TestKeys();
    ProjectAll(TestPayload(), TestSchema());
  }
}
