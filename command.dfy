/** packages/artnet-packets/lib/command: ArtCommand, a text command for the nodes of one
    manufacturer, behind the manufacturer code and the text's length. */
module CommandPacket {
  import opened Wrappers
  import opened ByteOrder
  import opened Schemas
  import opened Encoder
  import OrderedMaps
  import opened ArtNetPackets
  import PollPacket

  /** The OpCode of ArtCommand, 0x2400 in Art-Net 4. The library's table of OpCodes has
      no entry for it. */
  const OP_COMMAND: int := 0x2400
  const MAX_COMMAND_DATA_LENGTH: nat := 512
  /** The byte of the character '1'. */
  const ONE: byte := 0x31

  /** `schemaDefault` with its `data` record n characters wide. The class keeps a single
      static schema whose `data` record every constructor and every `create` overwrites;
      the `shared` parameters below are that record's width when the call is made. */
  function CommandSchema(n: nat): seq<(Key, Field)> {
    [(ProtocolVersion, NumberField(2, BE)), (EstaManufactorer, NumberField(2, BE)), (Length, NumberField(2, BE)),
     (Data, StringField(n))]
  }

  /** `'1'.repeat(n)`. */
  function Ones(n: nat): (r: seq<byte>)
    ensures |r| == n && 0 !in r
  {
    seq(n, _ => ONE)
  }

  /** The constructor's defaults for data n characters long: manufacturer 0x1234, the
      length, protocol version 14 and n ones, listed in schema order. */
  function DefaultEntries(n: nat): seq<(Key, Value)> {
    [(ProtocolVersion, Num(PROTOCOL_VERSION)), (EstaManufactorer, Num(0x1234)), (Length, Num(n)), (Data, Str(Ones(n)))]
  }

  function CommandDefaults(n: nat): Payload<Key> {
    Object(DefaultEntries(n))
  }

  /** Entries that name the four ArtCommand fields in schema order. */
  predicate InSchemaOrder(e: seq<(Key, Value)>) {
    |e| == 4 && e[0].0 == ProtocolVersion && e[1].0 == EstaManufactorer && e[2].0 == Length && e[3].0 == Data
  }

  function CommandKeys(): set<Key> {
    {ProtocolVersion, EstaManufactorer, Length, Data}
  }

  /** Every ArtCommand field is present. */
  predicate HasFields(p: Payload<Key>) {
    ProtocolVersion in p && EstaManufactorer in p && Length in p && Data in p
  }

  /** The object such entries spell holds each entry's value under its key, and no
      other key. */
  lemma ObjectValues(e: seq<(Key, Value)>)
    requires InSchemaOrder(e)
    ensures HasFields(Object(e))
    ensures var o := Object(e);
      o[ProtocolVersion] == e[0].1 && o[EstaManufactorer] == e[1].1 && o[Length] == e[2].1 && o[Data] == e[3].1
    ensures forall k :: k in Object(e) ==> k in CommandKeys()
  {
    ObjectKeys(e);
    LookupAt(e, 0);
    LookupAt(e, 1);
    LookupAt(e, 2);
    LookupAt(e, 3);
  }

  lemma ObjectKeys(e: seq<(Key, Value)>)
    requires InSchemaOrder(e)
    ensures HasFields(Object(e))
    ensures forall k :: k in Object(e) ==> k in CommandKeys()
  {
    assert e[0].0 in Object(e) && e[1].0 in Object(e) && e[2].0 in Object(e) && e[3].0 in Object(e);
  }

  lemma ObjectHeaderless(e: seq<(Key, Value)>)
    requires InSchemaOrder(e)
    ensures ID !in Object(e) && OpCode !in Object(e)
  {
    forall i | 0 <= i < |e|
      ensures e[i].0 != ID && e[i].0 != OpCode
    {
      assert i == 0 || i == 1 || i == 2 || i == 3;
    }
  }

  /** The defaults hold 14, 0x1234, n and n ones, and nothing else. */
  lemma DefaultValues(n: nat)
    ensures HasFields(CommandDefaults(n))
    ensures var d := CommandDefaults(n);
      d[ProtocolVersion] == Num(14) && d[EstaManufactorer] == Num(0x1234) && d[Length] == Num(n) && d[Data] == Str(Ones(n))
    ensures forall k :: k in CommandDefaults(n) ==> k in CommandKeys()
    ensures ID !in CommandDefaults(n) && OpCode !in CommandDefaults(n)
  {
    ObjectValues(DefaultEntries(n));
    ObjectHeaderless(DefaultEntries(n));
  }

  /** `payload.length ?? 512`. */
  function LengthOf(o: Payload<Key>): int {
    if Length in o && o[Length].Num? then o[Length].n else MAX_COMMAND_DATA_LENGTH
  }

  /** A length the payload names is a number of at least 0. */
  predicate LengthTyped(o: Payload<Key>) {
    Length in o ==> o[Length].Num? && o[Length].n >= 0
  }

  /** The payload `new Command(payload)` holds: the defaults for the length, the payload
      spread over them, and the header in front. `'1'.repeat` throws a RangeError for a
      negative length, so the constructor needs one of at least 0. */
  function CommandPayload(o: Payload<Key>): Payload<Key>
    requires LengthOf(o) >= 0
  {
    WithHeader(OP_COMMAND, CommandDefaults(LengthOf(o)) + o)
  }

  /** `new Command(payload)` as a value: the RangeError of `'1'.repeat`, or the payload. */
  function Build(o: Payload<Key>): (r: Result<Payload<Key>>)
    ensures r.Err? <==> LengthOf(o) < 0
    ensures r.Err? ==> r.error == RangeError
    ensures r.Ok? ==> r.value == CommandPayload(o)
  {
    if LengthOf(o) < 0 then Err(RangeError) else Ok(CommandPayload(o))
  }

  /** Every field is present, `length` is the width of the schema's `data` record, and
      the fields given are kept. */
  lemma PayloadFields(o: Payload<Key>)
    requires LengthTyped(o)
    ensures HasFields(CommandPayload(o)) && CommandPayload(o)[Length] == Num(LengthOf(o))
    ensures forall k :: k in o ==> CommandPayload(o)[k] == o[k]
  {
    DefaultValues(LengthOf(o));
  }

  /** Without data the packet holds `length` ones; without a manufacturer, 0x1234. */
  lemma PayloadDefaults(o: Payload<Key>)
    requires LengthOf(o) >= 0
    ensures HasFields(CommandPayload(o))
    ensures Data !in o ==> CommandPayload(o)[Data] == Str(Ones(LengthOf(o)))
    ensures EstaManufactorer !in o ==> CommandPayload(o)[EstaManufactorer] == Num(0x1234)
  {
    DefaultValues(LengthOf(o));
  }

  /** The header is the ArtCommand header unless it is given too. */
  lemma PayloadHeader(o: Payload<Key>)
    requires LengthOf(o) >= 0 && ID !in o && OpCode !in o
    ensures CommandPayload(o)[ID] == Str(ArtNetId()) && CommandPayload(o)[OpCode] == Num(OP_COMMAND)
  {
    DefaultValues(LengthOf(o));
  }

  function Is(data: seq<byte>): Result<bool> {
    IsOp(data, OP_COMMAND)
  }

  lemma CommandBytes(n: nat)
    ensures OffsetOf(CommandSchema(n), Length) == Some(4)
    ensures CalcBytes(CommandSchema(n)) == PackedSize(CommandSchema(n)) == 6 + n
  {
    LengthAt(n);
    CommandSizes(n);
  }

  lemma LengthAt(n: nat)
    ensures OffsetOf(CommandSchema(n), Length) == Some(4)
  {
    var s := CommandSchema(n);
    assert s[1..][1..][0].0 == Length;
    assert OffsetOf(s[1..][1..], Length) == Some(0);
  }

  lemma CommandSizes(n: nat)
    ensures CalcBytes(CommandSchema(n)) == PackedSize(CommandSchema(n)) == 6 + n
  {
    var s := CommandSchema(n);
    assert CalcFrom(s, 4) == 0 && PackedFrom(s, 4) == 0;
    assert CalcFrom(s, 3) == n && PackedFrom(s, 3) == n;
    assert CalcFrom(s, 2) == 2 + n && PackedFrom(s, 2) == 2 + n;
    assert CalcFrom(s, 1) == 4 + n && PackedFrom(s, 1) == 4 + n;
    Sizes(s, 6 + n, 6 + n);
  }

  lemma LayoutBytes(n: nat)
    ensures CalcBytes(Layout(CommandSchema(n))) == PackedSize(Layout(CommandSchema(n))) == 16 + n
  {
    HeaderLength();
    CommandBytes(n);
    SizesAppend(HeaderSchema(), CommandSchema(n));
  }

  /** `getDataLength`: null for a datagram that is not an ArtCommand, else the big-endian
      16-bit length at the length field's offset behind the 10-byte header, which throws
      a RangeError on a datagram shorter than 16 bytes. */
  function GetDataLength(data: seq<byte>, shared: nat): (r: Result<Option<nat>>)
    ensures Is(data).Err? ==> r == Err(RangeError)
    ensures Is(data) == Ok(false) ==> r == Ok(None)
    ensures Is(data) == Ok(true) && |data| < 16 ==> r == Err(RangeError)
    ensures Is(data) == Ok(true) && |data| >= 16 ==> r == Ok(Some(256 * data[14] as int + data[15] as int))
  {
    CommandBytes(shared);
    HeaderLength();
    match Is(data)
    case Err(e) => Err(e)
    case Ok(isCommand) =>
      if !isCommand then Ok(None)
      else
        var offset := OffsetOf(CommandSchema(shared), Length);
        if offset.None? || offset.value == 0 || offset.value == CalcBytes(CommandSchema(shared)) then Ok(None)
        else match GetHeaderLength(HeaderSchema()) {
          case Err(e) => Err(e)
          case Ok(h) =>
            var at := offset.value + h;
            if at + 2 > |data| then Err(RangeError)
            else
              TwoBytes(data[at..at + 2]);
              Ok(Some(FromBytes(data[at..at + 2], BE)))
        }
  }

  /** The shared static schema's current `data` width never changes what
      `getDataLength` reads. */
  lemma GetDataLengthShared(data: seq<byte>, shared: nat, other: nat)
    ensures GetDataLength(data, shared) == GetDataLength(data, other)
  {
  }

  class Command {
    var payload: Payload<Key>
    const schema: Schema<Key>
    /** The `data` width of the schema the packet was built with. */
    const count: nat

    ghost predicate Valid()
      reads this, schema
    {
      schema.entries == Layout(CommandSchema(count)) && HasFields(payload) && payload[Length] == Num(count)
    }

    /** `new Command(payload)`; logging the payload is left out. */
    constructor (o: Payload<Key>)
      requires LengthTyped(o)
      ensures Valid() && fresh(schema)
      ensures count == LengthOf(o) && payload == CommandPayload(o)
    {
      var n: nat := LengthOf(o);
      count := n;
      payload := CommandPayload(o);
      PayloadFields(o);
      CommandLayoutUnique(n);
      OrderedMaps.FromListUnique(Layout(CommandSchema(n)));
      schema := new Schema(Layout(CommandSchema(n)));
    }

    method Encode() returns (r: Result<seq<byte>>)
      requires Valid()
      ensures r == Encoded(payload, Layout(CommandSchema(count)))
    {
      r := Encoder.Encode(payload, schema);
    }

    method Decode(buffer: array<byte>) returns (r: Result<Payload<Key>>)
      requires Valid()
      modifies buffer
      ensures (r, buffer[..]) == Decoded(old(buffer[..]), Layout(CommandSchema(count)))
      ensures payload == old(payload)
    {
      r := Encoder.Decode(buffer, schema);
    }
  }

  // ---------------------------------------------------------------- create

  /** The schema `create` decodes with: the shared schema, without the header, its `data`
      record set to the length read from the datagram. */
  function CreateSchema(shared: nat, n: nat): seq<(Key, Field)> {
    OrderedMaps.Put(OrderedMaps.FromList(CommandSchema(shared)), Data, StringField(n))
  }

  lemma CreateSchemaIs(shared: nat, n: nat)
    ensures CreateSchema(shared, n) == CommandSchema(n)
  {
    OrderedMaps.FromListUnique(CommandSchema(shared));
    OrderedMaps.IndexOfAt(CommandSchema(shared), Data, 3);
  }

  /** `create` as written: null for another kind of datagram or a zero (or missing) data
      length, else the datagram decoded with the header-less schema and a packet built
      from that. */
  function Create(data: seq<byte>, shared: nat): (r: Result<Option<Payload<Key>>>)
    ensures Is(data) == Ok(false) ==> r == Ok(None)
    ensures GetDataLength(data, shared) == Ok(Some(0)) ==> r == Ok(None)
  {
    match Is(data)
    case Err(e) => Err(e)
    case Ok(isCommand) =>
      if !isCommand then Ok(None)
      else match GetDataLength(data, shared) {
        case Err(e) => Err(e)
        case Ok(len) =>
          if len.None? || len.value == 0 then Ok(None)
          else match Decoded(data, CreateSchema(shared, len.value)).0 {
            case Err(e) => Err(e)
            case Ok(d) =>
              match Build(d) {
                case Err(e) => Err(e)
                case Ok(p) => Ok(Some(p))
              }
          }
      }
  }

  /** The schema `create` evidently means: the header in front of the shared schema, as
      the other packet classes decode. */
  function CreateSchemaWithHeader(shared: nat, n: nat): seq<(Key, Field)> {
    OrderedMaps.Put(OrderedMaps.FromList(Layout(CommandSchema(shared))), Data, StringField(n))
  }

  lemma CreateSchemaWithHeaderIs(shared: nat, n: nat)
    ensures CreateSchemaWithHeader(shared, n) == Layout(CommandSchema(n))
  {
    var l := Layout(CommandSchema(shared));
    CommandLayoutUnique(shared);
    OrderedMaps.FromListUnique(l);
    OrderedMaps.IndexOfAt(l, Data, 5);
  }

  /** `create` decoding with the header in front. */
  function CreateWithHeader(data: seq<byte>, shared: nat): (r: Result<Option<Payload<Key>>>)
    ensures Is(data) == Ok(false) ==> r == Ok(None)
    ensures GetDataLength(data, shared) == Ok(Some(0)) ==> r == Ok(None)
    ensures r.Ok? && r.value.Some? ==> Is(data) == Ok(true) && |data| >= 16
  {
    match Is(data)
    case Err(e) => Err(e)
    case Ok(isCommand) =>
      if !isCommand then Ok(None)
      else match GetDataLength(data, shared) {
        case Err(e) => Err(e)
        case Ok(len) =>
          if len.None? || len.value == 0 then Ok(None)
          else match Decoded(data, CreateSchemaWithHeader(shared, len.value)).0 {
            case Err(e) => Err(e)
            case Ok(d) =>
              match Build(d) {
                case Err(e) => Err(e)
                case Ok(p) => Ok(Some(p))
              }
          }
      }
  }

  // ---------------------------------------------------------------- round trip

  lemma CommandLayoutUnique(n: nat)
    ensures OrderedMaps.UniqueKeys(Layout(CommandSchema(n)))
  {
    Records(n);
    LayoutUnique(CommandSchema(n));
  }

  lemma Records(n: nat)
    ensures OneByteArrays(CommandSchema(n)) && OrderedMaps.UniqueKeys(CommandSchema(n))
    ensures OrderedMaps.Apart(HeaderSchema(), CommandSchema(n))
  {
  }

  lemma DefaultsMatch(n: nat)
    requires n < 0x1_0000
    ensures Matches(DefaultEntries(n), CommandSchema(n))
  {
  }

  lemma Shape(n: nat)
    requires n < 0x1_0000
    ensures PacketShape(OP_COMMAND, CommandDefaults(n), CommandSchema(n))
  {
    Records(n);
    DefaultsMatch(n);
    ObjectMatches(DefaultEntries(n), CommandSchema(n));
    ShapeOf(OP_COMMAND, CommandDefaults(n), CommandSchema(n));
  }

  /** Overrides `new Command` can take and `create` gives back: a length that fits the
      length field, each value recovered by its field, no header fields. */
  ghost predicate CommandOverride(o: Payload<Key>) {
    LengthTyped(o) && LengthOf(o) < 0x1_0000 && Override(o, CommandSchema(LengthOf(o)))
  }

  /** Every ArtCommand built from fitting overrides encodes to 16 + length bytes, decodes
      back to its payload, and carries its length big-endian in bytes 14 and 15. */
  lemma RoundTrip(o: Payload<Key>)
    requires CommandOverride(o)
    ensures Encoded(CommandPayload(o), Layout(CommandSchema(LengthOf(o)))).Ok?
    ensures var b := Encoded(CommandPayload(o), Layout(CommandSchema(LengthOf(o)))).value;
      Decoded(b, Layout(CommandSchema(LengthOf(o)))) == (Ok(CommandPayload(o)), b) &&
      |b| == 16 + LengthOf(o) && b[14..16] == ToBytes(LengthOf(o), 2, BE)
  {
    var n: nat := LengthOf(o);
    Shape(n);
    PacketRoundTrip(OP_COMMAND, CommandDefaults(n), o, CommandSchema(n));
    var p := CommandPayload(o);
    PayloadFields(o);
    LayoutBytes(n);
    LengthImage(p, n);
  }

  lemma LengthImage(p: Payload<Key>, n: nat)
    requires AllWritable(p, Layout(CommandSchema(n)))
    ensures Length in p && Writable(p[Length], NumberField(2, BE))
    ensures var img := Serialize(p, Layout(CommandSchema(n)), false);
      |img| >= 16 && img[14..16] == Image(p[Length], NumberField(2, BE))
  {
    var front := HeaderSchema() + [(ProtocolVersion, NumberField(2, BE)), (EstaManufactorer, NumberField(2, BE))];
    assert Layout(CommandSchema(n)) == front + [(Length, NumberField(2, BE))] + [(Data, StringField(n))];
    assert PackedSize(front) == 14 by {
      HeaderLength();
      var f := [(ProtocolVersion, NumberField(2, BE)), (EstaManufactorer, NumberField(2, BE))];
      assert PackedSize(f) == 4;
      SizesAppend(HeaderSchema(), f);
    }
    SerializeAt(p, front, Length, NumberField(2, BE), [(Data, StringField(n))]);
  }

  /** The bytes at 14 and 15 of an ArtCommand datagram are what `getDataLength` reads. */
  lemma ReadLength(b: seq<byte>, n: nat, shared: nat)
    requires n < 0x1_0000 && Is(b) == Ok(true) && |b| >= 16 && b[14..16] == ToBytes(n, 2, BE)
    ensures GetDataLength(b, shared) == Ok(Some(n))
  {
    ByteOrder.RoundTrip(n, 2, BE);
    TwoBytes(ToBytes(n, 2, BE));
    assert b[14] == b[14..16][0] && b[15] == b[14..16][1];
  }

  /** `getDataLength` of an encoded ArtCommand is its length. */
  lemma EncodedDataLength(o: Payload<Key>, shared: nat)
    requires CommandOverride(o)
    ensures Encoded(CommandPayload(o), Layout(CommandSchema(LengthOf(o)))).Ok?
    ensures var b := Encoded(CommandPayload(o), Layout(CommandSchema(LengthOf(o)))).value;
      Is(b) == Ok(true) && |b| == 16 + LengthOf(o) && GetDataLength(b, shared) == Ok(Some(LengthOf(o)))
  {
    var n: nat := LengthOf(o);
    var p := CommandPayload(o);
    RoundTrip(o);
    var b := Encoded(p, Layout(CommandSchema(n))).value;
    PayloadHeader(o);
    EncodedIsOp(p, CommandSchema(n), OP_COMMAND);
    assert Is(b) == Ok(true);
    ReadLength(b, n, shared);
  }

  /** The payload of a packet is a fixed point of `new Command`. */
  lemma Rebuilt(o: Payload<Key>)
    requires LengthTyped(o)
    ensures LengthTyped(CommandPayload(o)) && LengthOf(CommandPayload(o)) == LengthOf(o)
    ensures Build(CommandPayload(o)) == Ok(CommandPayload(o))
  {
    var n: nat := LengthOf(o);
    var p := CommandPayload(o);
    PayloadFields(o);
    DefaultValues(n);
    WithHeaderIdempotent(OP_COMMAND, CommandDefaults(n), p);
  }

  /** As written, `create` throws on every encoded ArtCommand with data: the header-less
      schema adds up to 10 bytes fewer than the datagram holds. */
  lemma CreateOfEncodedFails(o: Payload<Key>, shared: nat)
    requires CommandOverride(o) && LengthOf(o) > 0
    ensures Encoded(CommandPayload(o), Layout(CommandSchema(LengthOf(o)))).Ok?
    ensures Create(Encoded(CommandPayload(o), Layout(CommandSchema(LengthOf(o)))).value, shared) == Err(PacketSizeMismatch)
  {
    var n: nat := LengthOf(o);
    EncodedDataLength(o, shared);
    CreateSchemaIs(shared, n);
    CommandBytes(n);
  }

  /** Decoding with the header, `create` of an encoded ArtCommand with data rebuilds it,
      so it re-encodes to the same bytes. */
  lemma CreateOfEncoded(o: Payload<Key>, shared: nat)
    requires CommandOverride(o) && LengthOf(o) > 0
    ensures Encoded(CommandPayload(o), Layout(CommandSchema(LengthOf(o)))).Ok?
    ensures CreateWithHeader(Encoded(CommandPayload(o), Layout(CommandSchema(LengthOf(o)))).value, shared) == Ok(Some(CommandPayload(o)))
  {
    var n: nat := LengthOf(o);
    var p := CommandPayload(o);
    RoundTrip(o);
    EncodedDataLength(o, shared);
    CreateSchemaWithHeaderIs(shared, n);
    Rebuilt(o);
    var b := Encoded(p, Layout(CommandSchema(n))).value;
    assert Decoded(b, CreateSchemaWithHeader(shared, n)).0 == Ok(p);
  }

  /** An ArtCommand without data is never rebuilt: both forms of `create` return null. */
  lemma CreateOfEmpty(o: Payload<Key>, shared: nat)
    requires CommandOverride(o) && LengthOf(o) == 0
    ensures Encoded(CommandPayload(o), Layout(CommandSchema(0))).Ok?
    ensures var b := Encoded(CommandPayload(o), Layout(CommandSchema(0))).value;
      Create(b, shared) == Ok(None) && CreateWithHeader(b, shared) == Ok(None)
  {
    EncodedDataLength(o, shared);
  }

  // ---------------------------------------------------------------- the package's tests

  /** The test payload: protocol version 14, manufacturer 6 and the command text
      "TEST COMMAND" with its length 12, listed in schema order. */
  function TestPayload(): Payload<Key> {
    Object(TestEntries())
  }

  function TestText(): seq<byte> {
    Ascii("TEST COMMAND")
  }

  function TestEntries(): seq<(Key, Value)> {
    [(ProtocolVersion, Num(PROTOCOL_VERSION)), (EstaManufactorer, Num(6)), (Length, Num(12)), (Data, Str(TestText()))]
  }

  lemma TestTextFacts()
    ensures |TestText()| == 12 && 0 !in TestText()
  {
  }

  lemma TestValues()
    ensures HasFields(TestPayload()) && LengthTyped(TestPayload()) && LengthOf(TestPayload()) == 12
    ensures forall k :: k in TestPayload() ==> k in CommandKeys()
  {
    ObjectValues(TestEntries());
  }

  lemma TestFits()
    ensures LengthTyped(TestPayload()) && LengthOf(TestPayload()) == 12 && Override(TestPayload(), CommandSchema(12))
  {
    TestValues();
    Records(12);
    TestMatches();
    ObjectMatches(TestEntries(), CommandSchema(12));
    OverrideOf(TestPayload(), CommandSchema(12));
  }

  lemma TestMatches()
    ensures Matches(TestEntries(), CommandSchema(12))
  {
    TestTextFacts();
  }

  /** The test payload names every field, so it overrides every default. */
  lemma TestOverride()
    ensures CommandOverride(TestPayload()) && LengthOf(TestPayload()) == 12
    ensures CommandPayload(TestPayload()) == WithHeader(OP_COMMAND, TestPayload())
  {
    TestFits();
    TestCovers();
  }

  lemma TestCovers()
    ensures LengthOf(TestPayload()) == 12 && CommandDefaults(12) + TestPayload() == TestPayload()
  {
    TestValues();
    DefaultValues(12);
  }

  /** The package's encode-decode test: the decoded datagram is the header plus the test
      payload. */
  method TestEncodeDecode() returns (decoded: Result<Payload<Key>>)
    ensures decoded == Ok(WithHeader(OP_COMMAND, TestPayload()))
  {
    TestOverride();
    RoundTrip(TestPayload());
    var packet := new Command(TestPayload());
    var udp := packet.Encode();
    var buffer := BufferFrom(udp.value);
    decoded := packet.Decode(buffer);
  }

  /** The package's create test expects the created packet to re-encode to the datagram;
      as written `create` throws on it, and with the header it passes. */
  lemma TestCreate()
    ensures LengthOf(TestPayload()) == 12
    ensures Encoded(CommandPayload(TestPayload()), Layout(CommandSchema(12))).Ok?
    ensures var udp := Encoded(CommandPayload(TestPayload()), Layout(CommandSchema(12))).value;
      Create(udp, 12) == Err(PacketSizeMismatch) && CreateWithHeader(udp, 12) == Ok(Some(CommandPayload(TestPayload())))
  {
    TestOverride();
    CreateOfEncodedFails(TestPayload(), 12);
    CreateOfEncoded(TestPayload(), 12);
  }

  /** The package's third test: an encoded default ArtPoll is not an ArtCommand, and
      `create` returns null for it. */
  lemma PollIsNotCommand(shared: nat)
    ensures Encoded(PollPacket.PollPayload(map[]), Layout(PollPacket.PollSchema())).Ok?
    ensures var udp := Encoded(PollPacket.PollPayload(map[]), Layout(PollPacket.PollSchema())).value;
      Is(udp) == Ok(false) && Create(udp, shared) == Ok(None) && CreateWithHeader(udp, shared) == Ok(None)
  {
    PollPacket.EncodedIsNoOther(map[], OP_COMMAND, map[], []);
  }
}
