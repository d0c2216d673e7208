/** packages/artnet-packets/lib/diag-data: ArtDiagData, a diagnostic text a node sends
    with a priority and the logical port it concerns, behind its length. */
module DiagDataPacket {
  import opened Wrappers
  import opened ByteOrder
  import opened Schemas
  import opened Encoder
  import OrderedMaps
  import opened ArtNetPackets

  const DIAG_CHANNEL_MAX: int := 512
  /** The data length a packet gets when its payload names none. */
  const DEFAULT_LENGTH: nat := 16

  /** The records of `schemaDefault` before the data length. */
  function Front(): seq<(Key, Field)> {
    [(ProtoVersion, NumberField(2, BE)), (Filler1, NumberField(1, BE)), (DiagPriority, NumberField(1, BE)),
     (LogicalPort, NumberField(1, BE)), (Filler3, NumberField(1, BE))]
  }

  /** `schemaDefault` with its `data` record n characters wide. The class keeps a single
      static schema whose `data` record every constructor overwrites; the `shared`
      parameters below are that record's width when the call is made. */
  function DiagSchema(n: nat): seq<(Key, Field)> {
    Front() + [(Length, NumberField(2, BE)), (Data, StringField(n))]
  }

  /** The text a packet carries when its payload names none. */
  function DefaultText(): seq<byte> {
    Ascii("Don't push on me")
  }

  lemma DefaultTextFacts()
    ensures |DefaultText()| == 16 && 0 !in DefaultText()
  {
  }

  /** The constructor's defaults with `data` set to the given value: protocol version 14,
      priority 0x10, logical port 0, the fillers 0 and the length. The default length is
      `payload.length ?? 16`; when the payload names a length the spread replaces it, so
      16 is the only default length that ever shows. The object literal's keys are
      distinct, so listing them in schema order gives the same object. */
  function DefaultEntries(data: Value): seq<(Key, Value)> {
    FrontEntries() + [(Data, data)]
  }

  function FrontEntries(): seq<(Key, Value)> {
    [(ProtoVersion, Num(PROTOCOL_VERSION)), (Filler1, Num(0)), (DiagPriority, Num(0x10)), (LogicalPort, Num(0)),
     (Filler3, Num(0)), (Length, Num(DEFAULT_LENGTH))]
  }

  function DiagDefaults(): Payload<Key> {
    Object(DefaultEntries(Str(DefaultText())))
  }

  /** Entries that name the seven ArtDiagData fields in schema order. */
  predicate InSchemaOrder(e: seq<(Key, Value)>) {
    |e| == 7 && e[0].0 == ProtoVersion && e[1].0 == Filler1 && e[2].0 == DiagPriority &&
    e[3].0 == LogicalPort && e[4].0 == Filler3 && e[5].0 == Length && e[6].0 == Data
  }

  function DiagKeys(): set<Key> {
    {ProtoVersion, Filler1, DiagPriority, LogicalPort, Filler3, Length, Data}
  }

  /** The object such entries spell holds each entry's value under its key. */
  lemma ObjectValues(e: seq<(Key, Value)>)
    requires InSchemaOrder(e)
    ensures var o := Object(e);
      o[ProtoVersion] == e[0].1 && o[Filler1] == e[1].1 && o[DiagPriority] == e[2].1 && o[LogicalPort] == e[3].1 &&
      o[Filler3] == e[4].1 && o[Length] == e[5].1 && o[Data] == e[6].1
  {
    LookupAt(e, 0);
    LookupAt(e, 1);
    LookupAt(e, 2);
    LookupAt(e, 3);
    LookupAt(e, 4);
    LookupAt(e, 5);
    LookupAt(e, 6);
  }

  /** ... and no other key. */
  lemma ObjectKeys(e: seq<(Key, Value)>)
    requires InSchemaOrder(e)
    ensures HasFields(Object(e))
    ensures forall k :: k in Object(e) ==> k in DiagKeys()
  {
    assert e[0].0 in Object(e) && e[1].0 in Object(e) && e[2].0 in Object(e) && e[3].0 in Object(e);
    assert e[4].0 in Object(e) && e[5].0 in Object(e) && e[6].0 in Object(e);
  }

  lemma ObjectHeaderless(e: seq<(Key, Value)>)
    requires InSchemaOrder(e)
    ensures ID !in Object(e) && OpCode !in Object(e)
  {
    forall i | 0 <= i < |e|
      ensures e[i].0 != ID && e[i].0 != OpCode
    {
      assert i == 0 || i == 1 || i == 2 || i == 3 || i == 4 || i == 5 || i == 6;
    }
  }

  /** Every ArtDiagData field is present. */
  predicate HasFields(p: Payload<Key>) {
    ProtoVersion in p && Filler1 in p && DiagPriority in p && LogicalPort in p && Filler3 in p && Length in p && Data in p
  }

  /** The defaults hold 14, 0, 0x10, 0, 0, 16 and the default text, and nothing else. */
  lemma DefaultValues()
    ensures HasFields(DiagDefaults())
    ensures var d := DiagDefaults();
      d[ProtoVersion] == Num(14) && d[Filler1] == Num(0) && d[DiagPriority] == Num(0x10) &&
      d[LogicalPort] == Num(0) && d[Filler3] == Num(0) && d[Length] == Num(16) && d[Data] == Str(DefaultText())
    ensures forall k :: k in DiagDefaults() ==> k in DiagKeys()
    ensures ID !in DiagDefaults() && OpCode !in DiagDefaults()
  {
    var e := DefaultEntries(Str(DefaultText()));
    ObjectValues(e);
    ObjectKeys(e);
    ObjectHeaderless(e);
  }

  /** `payload.length ?? 16`. */
  function LengthOf(o: Payload<Key>): int {
    if Length in o && o[Length].Num? then o[Length].n else DEFAULT_LENGTH
  }

  /** A length the payload names is a number a string record can be that wide. */
  predicate LengthTyped(o: Payload<Key>) {
    Length in o ==> o[Length].Num? && o[Length].n >= 0
  }

  /** The payload `new DiagData(payload)` holds: the defaults, the payload spread over
      them, and the header in front. */
  function DiagPayload(o: Payload<Key>): Payload<Key> {
    WithHeader(OP_DIAG_DATA, DiagDefaults() + o)
  }

  /** Every field is present, `length` is the width of the schema's `data` record, the
      fields given are kept and the rest are the defaults. */
  lemma PayloadFields(o: Payload<Key>)
    requires LengthTyped(o)
    ensures HasFields(DiagPayload(o)) && DiagPayload(o)[Length] == Num(LengthOf(o))
    ensures forall k :: k in o ==> DiagPayload(o)[k] == o[k]
  {
    DefaultValues();
  }

  /** The header is the ArtDiagData header unless it is given too. */
  lemma PayloadHeader(o: Payload<Key>)
    requires ID !in o && OpCode !in o
    ensures DiagPayload(o)[ID] == Str(ArtNetId()) && DiagPayload(o)[OpCode] == Num(OP_DIAG_DATA)
  {
    DefaultValues();
  }

  function Is(data: seq<byte>): Result<bool> {
    IsOp(data, OP_DIAG_DATA)
  }

  lemma LengthAt(shared: nat)
    ensures OffsetOf(DiagSchema(shared), Length) == Some(6)
  {
    var tail := [(Length, NumberField(2, BE)), (Data, StringField(shared))];
    assert PackedSize(Front()) == 6 by {
      Sizes(Front(), 6, 6);
    }
    assert OffsetOf(tail, Length) == Some(0);
    OffsetOfSkip(Front(), tail, Length);
  }

  lemma DiagBytes(shared: nat)
    ensures CalcBytes(DiagSchema(shared)) == 8 + shared
  {
    var tail := [(Length, NumberField(2, BE)), (Data, StringField(shared))];
    assert CalcBytes(Front()) == 6 by {
      Sizes(Front(), 6, 6);
    }
    assert CalcBytes(tail) == 2 + shared by {
      assert CalcFrom(tail, 2) == 0 && PackedFrom(tail, 2) == 0;
      assert CalcFrom(tail, 1) == shared && PackedFrom(tail, 1) == shared;
      Sizes(tail, 2 + shared, 2 + shared);
    }
    SizesAppend(Front(), tail);
  }

  /** `getDiagDataLength`: null for a datagram that is not an ArtDiagData, else the
      big-endian 16-bit length at the length field's offset behind the 10-byte header,
      which throws a RangeError on a datagram shorter than 18 bytes. */
  function GetDiagDataLength(data: seq<byte>, shared: nat): (r: Result<Option<nat>>)
    ensures Is(data).Err? ==> r == Err(RangeError)
    ensures Is(data) == Ok(false) ==> r == Ok(None)
    ensures Is(data) == Ok(true) && |data| < 18 ==> r == Err(RangeError)
    ensures Is(data) == Ok(true) && |data| >= 18 ==> r == Ok(Some(256 * data[16] as int + data[17] as int))
  {
    LengthAt(shared);
    DiagBytes(shared);
    HeaderLength();
    match Is(data)
    case Err(e) => Err(e)
    case Ok(isDiag) =>
      if !isDiag then Ok(None)
      else
        var offset := OffsetOf(DiagSchema(shared), Length);
        if offset == Some(CalcBytes(DiagSchema(shared))) then Ok(None)
        else if offset.None? then Ok(None)
        else match GetHeaderLength(HeaderSchema()) {
          case Err(e) => Err(e)
          case Ok(h) =>
            var at := offset.value + h;
            if at + 2 > |data| then Err(RangeError)
            else
              TwoBytes(data[at..at + 2]);
              Ok(Some(FromBytes(data[at..at + 2], BE)))
        }
  }

  /** The shared static schema's current `data` width never changes what
      `getDiagDataLength` reads. */
  lemma GetDiagDataLengthShared(data: seq<byte>, shared: nat, other: nat)
    ensures GetDiagDataLength(data, shared) == GetDiagDataLength(data, other)
  {
  }

  class DiagData {
    var payload: Payload<Key>
    const schema: Schema<Key>
    /** The `data` width of the schema the packet was built with. */
    const count: nat

    ghost predicate Valid()
      reads this, schema
    {
      schema.entries == Layout(DiagSchema(count)) && Length in payload && payload[Length] == Num(count)
    }

    /** `new DiagData(payload)`. */
    constructor (o: Payload<Key>)
      requires LengthTyped(o)
      ensures Valid() && fresh(schema)
      ensures count == LengthOf(o) && payload == DiagPayload(o)
    {
      var n: nat := LengthOf(o);
      count := n;
      payload := DiagPayload(o);
      PayloadFields(o);
      DiagLayoutUnique(n);
      OrderedMaps.FromListUnique(Layout(DiagSchema(n)));
      schema := new Schema(Layout(DiagSchema(n)));
    }

    method Encode() returns (r: Result<seq<byte>>)
      requires Valid()
      ensures r == Encoded(payload, Layout(DiagSchema(count)))
    {
      r := Encoder.Encode(payload, schema);
    }

    method Decode(buffer: array<byte>) returns (r: Result<Payload<Key>>)
      requires Valid()
      modifies buffer
      ensures (r, buffer[..]) == Decoded(old(buffer[..]), Layout(DiagSchema(count)))
      ensures payload == old(payload)
    {
      r := Encoder.Decode(buffer, schema);
    }
  }

  // ---------------------------------------------------------------- create

  lemma DiagLayoutUnique(n: nat)
    ensures OrderedMaps.UniqueKeys(Layout(DiagSchema(n)))
  {
  }

  /** The schema `create` decodes with: the shared schema behind the header, its `data`
      record set to the length read from the datagram. */
  function CreateSchema(shared: nat, n: nat): seq<(Key, Field)> {
    OrderedMaps.Put(OrderedMaps.FromList(Layout(DiagSchema(shared))), Data, StringField(n))
  }

  lemma CreateSchemaIs(shared: nat, n: nat)
    ensures CreateSchema(shared, n) == Layout(DiagSchema(n))
  {
    DiagLayoutUnique(shared);
    OrderedMaps.FromListUnique(Layout(DiagSchema(shared)));
    var l := Layout(DiagSchema(shared));
    OrderedMaps.IndexOfAt(l, Data, 8);
  }

  /** `create`: null for another kind of datagram or a zero (or missing) data length, else
      the payload of a packet built from the datagram decoded with that length. */
  function Create(data: seq<byte>, shared: nat): (r: Result<Option<Payload<Key>>>)
    ensures Is(data) == Ok(false) ==> r == Ok(None)
    ensures GetDiagDataLength(data, shared) == Ok(Some(0)) ==> r == Ok(None)
    ensures r.Ok? && r.value.Some? ==> Is(data) == Ok(true) && |data| >= 18
  {
    match Is(data)
    case Err(e) => Err(e)
    case Ok(isDiag) =>
      if !isDiag then Ok(None)
      else match GetDiagDataLength(data, shared) {
        case Err(e) => Err(e)
        case Ok(len) =>
          if len.None? || len.value == 0 then Ok(None)
          else match Decoded(data, CreateSchema(shared, len.value)).0 {
            case Err(e) => Err(e)
            case Ok(d) => Ok(Some(DiagPayload(d)))
          }
      }
  }

  // ---------------------------------------------------------------- round trip

  lemma Records(n: nat)
    ensures OneByteArrays(DiagSchema(n)) && OrderedMaps.UniqueKeys(DiagSchema(n))
    ensures OrderedMaps.Apart(HeaderSchema(), DiagSchema(n))
  {
  }

  /** With the data value recoverable at width n every default is. */
  lemma DefaultsMatch(n: nat, data: Value)
    requires Recoverable(data, StringField(n))
    ensures Matches(DefaultEntries(data), DiagSchema(n))
  {
  }

  /** `PacketShape` of the defaults with any data value that fits n characters. */
  lemma Shape(n: nat, data: Value)
    requires Recoverable(data, StringField(n))
    ensures PacketShape(OP_DIAG_DATA, Object(DefaultEntries(data)), DiagSchema(n))
  {
    Records(n);
    DefaultsMatch(n, data);
    ObjectMatches(DefaultEntries(data), DiagSchema(n));
    ShapeOf(OP_DIAG_DATA, Object(DefaultEntries(data)), DiagSchema(n));
  }

  /** Overrides that name the data hide the default text, whatever it is. */
  lemma DataHidden(o: Payload<Key>, v: Value, w: Value)
    requires Data in o
    ensures Object(DefaultEntries(v)) + o == Object(DefaultEntries(w)) + o
  {
    ObjectSnoc(FrontEntries(), Data, v);
    ObjectSnoc(FrontEntries(), Data, w);
    Hidden(Object(FrontEntries()), Data, v, w, o);
  }

  /** An object literal with one more entry at the end is the object with that key set. */
  lemma ObjectSnoc<K>(e: seq<(K, Value)>, k: K, v: Value)
    ensures Object(e + [(k, v)]) == Object(e)[k := v]
  {
    var f := e + [(k, v)];
    assert f[..|e|] == e;
    forall j | j in Object(e)[k := v] ensures j in Object(f) {
      if j != k {
        var i :| 0 <= i < |e| && e[i].0 == j;
        assert f[i].0 == j;
      } else {
        assert f[|e|].0 == k;
      }
    }
    forall j | j in Object(f) ensures j in Object(e)[k := v] {
      var i :| 0 <= i < |f| && f[i].0 == j;
      if i < |e| { assert e[i].0 == j; }
    }
  }

  /** Overrides naming a key hide what the base holds under it. */
  lemma Hidden<K>(base: Payload<K>, k: K, v: Value, w: Value, o: Payload<K>)
    requires k in o
    ensures base[k := v] + o == base[k := w] + o
  {
  }

  /** Overrides `new DiagData` can take and `create` gives back: a length that fits the
      length field, each value recovered by its field, no header fields, and, when the
      default text is kept, a data record wide enough for it. */
  ghost predicate DiagOverride(o: Payload<Key>) {
    LengthTyped(o) && LengthOf(o) < 0x1_0000 && Override(o, DiagSchema(LengthOf(o))) &&
    (Data !in o ==> LengthOf(o) >= |DefaultText()|)
  }

  /** The merged payload is the one built from defaults whose data fits the width. */
  lemma FittingDefaults(o: Payload<Key>) returns (v: Value)
    requires DiagOverride(o)
    ensures Recoverable(v, StringField(LengthOf(o)))
    ensures DiagPayload(o) == WithHeader(OP_DIAG_DATA, Object(DefaultEntries(v)) + o)
  {
    DefaultTextFacts();
    if Data in o {
      v := Str([]);
      DataHidden(o, Str(DefaultText()), v);
    } else {
      v := Str(DefaultText());
    }
  }

  /** Every ArtDiagData built from fitting overrides encodes, decodes back to its payload,
      and carries its length big-endian in bytes 16 and 17. */
  lemma RoundTrip(o: Payload<Key>)
    requires DiagOverride(o)
    ensures Encoded(DiagPayload(o), Layout(DiagSchema(LengthOf(o)))).Ok?
    ensures var b := Encoded(DiagPayload(o), Layout(DiagSchema(LengthOf(o)))).value;
      Decoded(b, Layout(DiagSchema(LengthOf(o)))) == (Ok(DiagPayload(o)), b) &&
      |b| == 18 + LengthOf(o) && b[16..18] == ToBytes(LengthOf(o), 2, BE)
  {
    var n: nat := LengthOf(o);
    var v := FittingDefaults(o);
    Shape(n, v);
    PacketRoundTrip(OP_DIAG_DATA, Object(DefaultEntries(v)), o, DiagSchema(n));
    var p := DiagPayload(o);
    PayloadFields(o);
    LayoutSplit(n);
    SerializeAt(p, HeaderSchema() + Front(), Length, NumberField(2, BE), [(Data, StringField(n))]);
  }

  /** The header, the records before the length, and the length field. */
  function Prefix(): seq<(Key, Field)> {
    HeaderSchema() + Front() + [(Length, NumberField(2, BE))]
  }

  lemma LayoutSplit(n: nat)
    ensures Layout(DiagSchema(n)) == (HeaderSchema() + Front()) + [(Length, NumberField(2, BE))] + [(Data, StringField(n))]
    ensures PackedSize(HeaderSchema() + Front()) == 16
    ensures CalcBytes(Layout(DiagSchema(n))) == 18 + n
  {
    LayoutParts(n);
    FrontSize();
    assert CalcBytes(Layout(DiagSchema(n))) == 18 + n by {
      HeaderLength();
      SizesAppend(HeaderSchema(), DiagSchema(n));
      DiagBytes(n);
    }
  }

  lemma LayoutParts(n: nat)
    ensures Layout(DiagSchema(n)) == (HeaderSchema() + Front()) + [(Length, NumberField(2, BE))] + [(Data, StringField(n))]
  {
    var h, f, l, d := HeaderSchema(), Front(), [(Length, NumberField(2, BE))], [(Data, StringField(n))];
    assert h + (f + (l + d)) == h + f + l + d;
  }

  lemma FrontSize()
    ensures PackedSize(HeaderSchema() + Front()) == 16
  {
    HeaderLength();
    assert PackedSize(Front()) == 6 by {
      Sizes(Front(), 6, 6);
    }
    SizesAppend(HeaderSchema(), Front());
  }

  /** The bytes at 16 and 17 of an ArtDiagData datagram are what `getDiagDataLength` reads. */
  lemma ReadLength(b: seq<byte>, n: nat, shared: nat)
    requires n < 0x1_0000 && Is(b) == Ok(true) && |b| >= 18 && b[16..18] == ToBytes(n, 2, BE)
    ensures GetDiagDataLength(b, shared) == Ok(Some(n))
  {
    ByteOrder.RoundTrip(n, 2, BE);
    TwoBytes(ToBytes(n, 2, BE));
    assert b[16] == b[16..18][0] && b[17] == b[16..18][1];
  }

  /** `getDiagDataLength` of an encoded ArtDiagData is its length. */
  lemma EncodedDataLength(o: Payload<Key>, shared: nat)
    requires DiagOverride(o)
    ensures Encoded(DiagPayload(o), Layout(DiagSchema(LengthOf(o)))).Ok?
    ensures var b := Encoded(DiagPayload(o), Layout(DiagSchema(LengthOf(o)))).value;
      Is(b) == Ok(true) && GetDiagDataLength(b, shared) == Ok(Some(LengthOf(o)))
  {
    var n: nat := LengthOf(o);
    var p := DiagPayload(o);
    RoundTrip(o);
    var b := Encoded(p, Layout(DiagSchema(n))).value;
    PayloadHeader(o);
    EncodedIsOp(p, DiagSchema(n), OP_DIAG_DATA);
    assert Is(b) == Ok(true);
    ReadLength(b, n, shared);
  }

  /** The payload of a packet is a fixed point of `new DiagData`. */
  lemma Rebuilt(o: Payload<Key>)
    requires LengthTyped(o)
    ensures LengthTyped(DiagPayload(o)) && LengthOf(DiagPayload(o)) == LengthOf(o)
    ensures DiagPayload(DiagPayload(o)) == DiagPayload(o)
  {
    var p := DiagPayload(o);
    PayloadFields(o);
    DefaultValues();
    WithHeaderIdempotent(OP_DIAG_DATA, DiagDefaults(), p);
  }

  /** `create` of an encoded ArtDiagData of length at least 1 rebuilds it, so it re-encodes
      to the same bytes. */
  lemma CreateOfEncoded(o: Payload<Key>, shared: nat)
    requires DiagOverride(o) && LengthOf(o) > 0
    ensures Encoded(DiagPayload(o), Layout(DiagSchema(LengthOf(o)))).Ok?
    ensures Create(Encoded(DiagPayload(o), Layout(DiagSchema(LengthOf(o)))).value, shared) == Ok(Some(DiagPayload(o)))
  {
    var n: nat := LengthOf(o);
    var p := DiagPayload(o);
    RoundTrip(o);
    EncodedDataLength(o, shared);
    CreateSchemaIs(shared, n);
    Rebuilt(o);
    var b := Encoded(p, Layout(DiagSchema(n))).value;
    assert Decoded(b, CreateSchema(shared, n)).0 == Ok(p);
  }

  /** An ArtDiagData of length 0 is never rebuilt: `create` returns null for it. */
  lemma CreateOfEmpty(o: Payload<Key>, shared: nat)
    requires DiagOverride(o) && LengthOf(o) == 0
    ensures Encoded(DiagPayload(o), Layout(DiagSchema(0))).Ok?
    ensures Create(Encoded(DiagPayload(o), Layout(DiagSchema(0))).value, shared) == Ok(None)
  {
    EncodedDataLength(o, shared);
  }

  // ---------------------------------------------------------------- the package's tests

  /** The test payload: priority 11, logical port 2, fillers 0 and the text "Test data"
      in a data record 10 characters wide, listed in schema order. */
  function TestPayload(): Payload<Key> {
    Object(TestEntries())
  }

  function TestEntries(): seq<(Key, Value)> {
    [(ProtoVersion, Num(PROTOCOL_VERSION)), (Filler1, Num(0)), (DiagPriority, Num(11)), (LogicalPort, Num(2)),
     (Filler3, Num(0)), (Length, Num(10)), (Data, Str(Ascii("Test data")))]
  }

  lemma TestText()
    ensures |Ascii("Test data")| == 9 && 0 !in Ascii("Test data")
  {
  }

  lemma TestValues()
    ensures HasFields(TestPayload()) && LengthTyped(TestPayload()) && LengthOf(TestPayload()) == 10
    ensures forall k :: k in TestPayload() ==> k in DiagKeys()
  {
    ObjectValues(TestEntries());
    ObjectKeys(TestEntries());
  }

  lemma TestMatches()
    ensures Matches(TestEntries(), DiagSchema(10))
  {
    TestText();
  }

  /** The test payload names every field, each with a value that survives a round trip,
      so it overrides every default. */
  lemma TestOverride()
    ensures DiagOverride(TestPayload()) && LengthOf(TestPayload()) == 10
    ensures DiagPayload(TestPayload()) == WithHeader(OP_DIAG_DATA, TestPayload())
  {
    TestFits();
    TestCovers();
  }

  lemma TestFits()
    ensures LengthTyped(TestPayload()) && LengthOf(TestPayload()) == 10 && Data in TestPayload()
    ensures Override(TestPayload(), DiagSchema(10))
  {
    TestValues();
    Records(10);
    TestMatches();
    ObjectMatches(TestEntries(), DiagSchema(10));
    OverrideOf(TestPayload(), DiagSchema(10));
  }

  lemma TestCovers()
    ensures DiagDefaults() + TestPayload() == TestPayload()
  {
    TestValues();
    DefaultValues();
  }

  /** The package's encode-decode test: the decoded datagram is the header plus the test
      payload, and its data length reads 10. */
  method TestEncodeDecode() returns (decoded: Result<Payload<Key>>, len: Result<Option<nat>>)
    ensures decoded == Ok(WithHeader(OP_DIAG_DATA, TestPayload()))
    ensures len == Ok(Some(10))
  {
    TestOverride();
    EncodedDataLength(TestPayload(), 10);
    RoundTrip(TestPayload());
    var packet := new DiagData(TestPayload());
    var udp := packet.Encode();
    var bytes := udp.value;
    var buffer := BufferFrom(bytes);
    decoded := packet.Decode(buffer);
    len := GetDiagDataLength(bytes, 10);
  }

  /** The package's create test: `create` on the encoded test packet gives a packet that
      encodes to the same datagram. */
  lemma TestCreate()
    ensures LengthTyped(TestPayload()) && LengthOf(TestPayload()) == 10
    ensures Encoded(DiagPayload(TestPayload()), Layout(DiagSchema(10))).Ok?
    ensures var udp := Encoded(DiagPayload(TestPayload()), Layout(DiagSchema(10))).value;
      Create(udp, 10) == Ok(Some(DiagPayload(TestPayload())))
  {
    TestOverride();
    CreateOfEncoded(TestPayload(), 10);
  }
}
