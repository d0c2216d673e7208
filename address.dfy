/** packages/artnet-packets/lib/address: ArtAddress, a controller's request to rename and
    re-address a node. Bit 7 of the switch bytes tells the node to take the new value
    (set) or to go back to its physical switches (clear); `applyPortsConfig` and
    `resetToPhysicalPortsConfig` set and clear it with JavaScript's 32-bit `|` and `&`. */
module AddressPacket {
  import opened Wrappers
  import opened ByteOrder
  import opened Schemas
  import opened Encoder
  import OrderedMaps
  import opened ArtNetPackets
  import opened JsNumbers

  /** Bit 7: the node is to take the value sent. */
  const PROGRAM_BIT: int := 0x80
  /** The bits below bit 7. */
  const PHYSICAL_MASK: int := 0x7f

  /** `schemaDefault`, in wire order. */
  function AddressSchema(): seq<(Key, Field)> {
    [(ProtoVersion, NumberField(2, BE)), (NetSwitch, NumberField(1, BE)), (BindIndex, NumberField(1, BE)),
     (ShortName, StringField(18)), (LongName, StringField(64)), (SwIn, ArrayField(4, 1, LE)),
     (SwOut, ArrayField(4, 1, LE)), (NetSubSwitch, NumberField(1, BE)), (SwVideo, NumberField(1, BE)),
     (Command, NumberField(1, BE))]
  }

  /** The constructor's defaults: both names "ArtNet-Node", everything else 0. */
  function AddressDefaults(): Payload<Key> {
    Object(DefaultEntries())
  }

  function DefaultEntries(): seq<(Key, Value)> {
    [(ProtoVersion, Num(PROTOCOL_VERSION)), (NetSwitch, Num(0)), (BindIndex, Num(0)),
     (ShortName, Str(Ascii("ArtNet-Node"))), (LongName, Str(Ascii("ArtNet-Node"))),
     (SwIn, Arr([0, 0, 0, 0])), (SwOut, Arr([0, 0, 0, 0])), (NetSubSwitch, Num(0)),
     (SwVideo, Num(0)), (Command, Num(0))]
  }

  /** The payload `new Address(payload)` holds. */
  function AddressPayload(o: Payload<Key>): Payload<Key> {
    WithHeader(OP_ADDRESS, AddressDefaults() + o)
  }

  function Is(data: seq<byte>): Result<bool> {
    IsOp(data, OP_ADDRESS)
  }

  function Create(data: seq<byte>): Result<Option<Payload<Key>>> {
    CreateFrom(data, OP_ADDRESS, AddressDefaults(), AddressSchema())
  }

  // ---------------------------------------------------------------- bit 7 of one value

  /** `x | 0x80`. */
  function Programmed(x: int): int {
    Or(x, PROGRAM_BIT)
  }

  /** `x & 0x7f`. */
  function Physical(x: int): int {
    And(x, PHYSICAL_MASK)
  }

  /** On a byte, setting bit 7 adds 0x80 when it was clear and changes nothing when it was
      set; either way the result is a byte with bit 7 set. */
  lemma ProgrammedByte(x: int)
    requires 0 <= x < 256
    ensures Programmed(x) == if x < 0x80 then x + 0x80 else x
    ensures 0x80 <= Programmed(x) < 256
  {
    Pow2Values();
    OrSingleBit(x, 7);
    if x < 0x80 {
      BitAboveClear(x, 7);
    } else {
      BitAboveClear(x - 0x80, 7);
      BitsOfAddPow2(x - 0x80, 7, 7);
    }
  }

  /** Clearing bit 7 keeps the low seven bits of any number, negative ones included. */
  lemma PhysicalLow(x: int)
    ensures Physical(x) == x % 0x80
    ensures 0 <= Physical(x) < 0x80
  {
    Pow2Values();
    AndLowMask(x, 7);
  }

  lemma ProgrammedIdempotent(x: int)
    ensures Programmed(Programmed(x)) == Programmed(x)
  {
    OrIdempotent(x, PROGRAM_BIT);
  }

  lemma PhysicalIdempotent(x: int)
    ensures Physical(Physical(x)) == Physical(x)
  {
    var y := Physical(x);
    PhysicalLow(x);
    PhysicalLow(y);
    LowIsItself(y);
  }

  lemma LowIsItself(y: int)
    requires 0 <= y < 0x80
    ensures y % 0x80 == y
  {
  }

  /** A value below 0x80 comes back from setting bit 7 and clearing it again (0x05 → 0x85
      → 0x05). */
  lemma PhysicalOfProgrammed(x: int)
    requires 0 <= x < 0x80
    ensures Physical(Programmed(x)) == x
  {
    ProgrammedByte(x);
    PhysicalLow(x + 0x80);
    LowIsItself(x);
    ModShift(x + 0x80, x, 0x80, 1);
  }

  /** A byte with bit 7 set comes back from clearing bit 7 and setting it again. */
  lemma ProgrammedOfPhysical(x: int)
    requires 0x80 <= x < 256
    ensures Programmed(Physical(x)) == x
  {
    PhysicalLow(x);
    ModShift(x, x - 0x80, 0x80, 1);
    LowIsItself(x - 0x80);
    ProgrammedByte(x - 0x80);
  }

  // ---------------------------------------------------------------- bit 7 of an array

  /** `a.map((x) => x | 0x80)`. */
  function ProgramAll(a: seq<int>): seq<int> {
    seq(|a|, i requires 0 <= i < |a| => Programmed(a[i]))
  }

  /** `a.map((x) => x & 0x7f)`. */
  function PhysicalAll(a: seq<int>): seq<int> {
    seq(|a|, i requires 0 <= i < |a| => Physical(a[i]))
  }

  predicate Bytes(a: seq<int>) {
    forall i :: 0 <= i < |a| ==> 0 <= a[i] < 256
  }

  predicate Below(a: seq<int>, bound: int) {
    forall i :: 0 <= i < |a| ==> 0 <= a[i] < bound
  }

  predicate Programs(a: seq<int>) {
    forall i :: 0 <= i < |a| ==> 0x80 <= a[i] < 256
  }

  /** Bytes stay bytes, now with bit 7 set. */
  lemma ProgramAllBytes(a: seq<int>)
    requires Bytes(a)
    ensures Programs(ProgramAll(a)) && Bytes(ProgramAll(a))
  {
    forall i | 0 <= i < |a| ensures 0x80 <= ProgramAll(a)[i] < 256 {
      ProgrammedByte(a[i]);
    }
  }

  /** Every element ends up below 0x80. */
  lemma PhysicalAllBelow(a: seq<int>)
    ensures Below(PhysicalAll(a), 0x80) && Bytes(PhysicalAll(a))
  {
    forall i | 0 <= i < |a| ensures 0 <= PhysicalAll(a)[i] < 0x80 {
      PhysicalLow(a[i]);
    }
  }

  lemma ProgramAllIdempotent(a: seq<int>)
    ensures ProgramAll(ProgramAll(a)) == ProgramAll(a)
  {
    forall i | 0 <= i < |a| ensures ProgramAll(ProgramAll(a))[i] == ProgramAll(a)[i] {
      ProgrammedIdempotent(a[i]);
    }
  }

  lemma PhysicalAllIdempotent(a: seq<int>)
    ensures PhysicalAll(PhysicalAll(a)) == PhysicalAll(a)
  {
    forall i | 0 <= i < |a| ensures PhysicalAll(PhysicalAll(a))[i] == PhysicalAll(a)[i] {
      PhysicalIdempotent(a[i]);
    }
  }

  lemma PhysicalOfProgramAll(a: seq<int>)
    requires Below(a, 0x80)
    ensures PhysicalAll(ProgramAll(a)) == a
  {
    forall i | 0 <= i < |a| ensures PhysicalAll(ProgramAll(a))[i] == a[i] {
      PhysicalOfProgrammed(a[i]);
    }
  }

  lemma ProgramOfPhysicalAll(a: seq<int>)
    requires Programs(a)
    ensures ProgramAll(PhysicalAll(a)) == a
  {
    forall i | 0 <= i < |a| ensures ProgramAll(PhysicalAll(a))[i] == a[i] {
      ProgrammedOfPhysical(a[i]);
    }
  }

  // ---------------------------------------------------------------- the payload transforms

  /** The number under a key as the bitwise operators see it: a missing value is 0. */
  function NumOf(p: Payload<Key>, k: Key): int {
    if k in p && p[k].Num? then p[k].n else 0
  }

  /** `swIn` and `swOut` hold arrays, as the payload type demands; `map` throws otherwise. */
  predicate PortsTyped(p: Payload<Key>) {
    SwIn in p && p[SwIn].Arr? && SwOut in p && p[SwOut].Arr?
  }

  /** The payload after `applyPortsConfig`. */
  function Applied(p: Payload<Key>): (r: Payload<Key>)
    requires PortsTyped(p)
    ensures PortsTyped(r)
  {
    p[NetSwitch := Num(Programmed(NumOf(p, NetSwitch)))]
     [NetSubSwitch := Num(Programmed(NumOf(p, NetSubSwitch)))]
     [SwOut := Arr(ProgramAll(p[SwOut].a))]
     [SwIn := Arr(ProgramAll(p[SwIn].a))]
  }

  /** The payload after `resetToPhysicalPortsConfig`. */
  function Reset(p: Payload<Key>): (r: Payload<Key>)
    requires PortsTyped(p)
    ensures PortsTyped(r)
  {
    p[NetSwitch := Num(Physical(NumOf(p, NetSwitch)))]
     [NetSubSwitch := Num(Physical(NumOf(p, NetSubSwitch)))]
     [SwOut := Arr(PhysicalAll(p[SwOut].a))]
     [SwIn := Arr(PhysicalAll(p[SwIn].a))]
  }

  /** The four values the transforms touch. */
  predicate PortKey(k: Key) {
    k == NetSwitch || k == NetSubSwitch || k == SwIn || k == SwOut
  }

  /** Neither transform adds, drops or changes any other field (names, `bindIndex`,
      `swVideo`, `command`, `protoVersion`, the header), nor an array's length. */
  lemma OthersKept(p: Payload<Key>)
    requires PortsTyped(p)
    ensures forall k :: !PortKey(k) ==> (k in Applied(p) <==> k in p) && (k in Reset(p) <==> k in p)
    ensures forall k :: !PortKey(k) && k in p ==> Applied(p)[k] == p[k] && Reset(p)[k] == p[k]
    ensures |Applied(p)[SwIn].a| == |Reset(p)[SwIn].a| == |p[SwIn].a|
    ensures |Applied(p)[SwOut].a| == |Reset(p)[SwOut].a| == |p[SwOut].a|
    ensures NetSwitch in Applied(p) && NetSubSwitch in Applied(p) && NetSwitch in Reset(p) && NetSubSwitch in Reset(p)
  {
    UpdatesKeepOthers(p, Num(Programmed(NumOf(p, NetSwitch))), Num(Programmed(NumOf(p, NetSubSwitch))),
      Arr(ProgramAll(p[SwOut].a)), Arr(ProgramAll(p[SwIn].a)));
    UpdatesKeepOthers(p, Num(Physical(NumOf(p, NetSwitch))), Num(Physical(NumOf(p, NetSubSwitch))),
      Arr(PhysicalAll(p[SwOut].a)), Arr(PhysicalAll(p[SwIn].a)));
  }

  lemma UpdatesKeepOthers(p: Payload<Key>, a: Value, b: Value, c: Value, d: Value)
    ensures var q := p[NetSwitch := a][NetSubSwitch := b][SwOut := c][SwIn := d];
      forall k :: !PortKey(k) ==> (k in q <==> k in p) && (k in p ==> q[k] == p[k])
  {
  }

  /** Updating the four port values, whatever they are, in the order the transforms do. */
  lemma PortsUpdated(p: Payload<Key>, a: Value, b: Value, c: Value, d: Value)
    ensures var q := p[NetSwitch := a][NetSubSwitch := b][SwOut := c][SwIn := d];
      q[NetSwitch] == a && q[NetSubSwitch] == b && q[SwOut] == c && q[SwIn] == d
  {
  }

  /** Updating them again replaces the first updates. */
  lemma PortsTwice(p: Payload<Key>, a: Value, b: Value, c: Value, d: Value, a': Value, b': Value, c': Value, d': Value)
    ensures p[NetSwitch := a][NetSubSwitch := b][SwOut := c][SwIn := d]
              [NetSwitch := a'][NetSubSwitch := b'][SwOut := c'][SwIn := d']
         == p[NetSwitch := a'][NetSubSwitch := b'][SwOut := c'][SwIn := d']
  {
  }

  /** Putting back the values a payload had restores it. */
  lemma PortsRestored(p: Payload<Key>, a: Value, b: Value, c: Value, d: Value)
    requires NetSwitch in p && NetSubSwitch in p && SwOut in p && SwIn in p
    ensures p[NetSwitch := a][NetSubSwitch := b][SwOut := c][SwIn := d]
              [NetSwitch := p[NetSwitch]][NetSubSwitch := p[NetSubSwitch]][SwOut := p[SwOut]][SwIn := p[SwIn]]
         == p
  {
  }

  lemma AppliedIdempotent(p: Payload<Key>)
    requires PortsTyped(p)
    ensures Applied(Applied(p)) == Applied(p)
  {
    var q := Applied(p);
    var a, b := Programmed(NumOf(p, NetSwitch)), Programmed(NumOf(p, NetSubSwitch));
    var c, d := ProgramAll(p[SwOut].a), ProgramAll(p[SwIn].a);
    PortsUpdated(p, Num(a), Num(b), Arr(c), Arr(d));
    ProgrammedIdempotent(NumOf(p, NetSwitch));
    ProgrammedIdempotent(NumOf(p, NetSubSwitch));
    ProgramAllIdempotent(p[SwOut].a);
    ProgramAllIdempotent(p[SwIn].a);
    assert NumOf(q, NetSwitch) == a && NumOf(q, NetSubSwitch) == b && q[SwOut].a == c && q[SwIn].a == d;
    PortsTwice(p, Num(a), Num(b), Arr(c), Arr(d), Num(a), Num(b), Arr(c), Arr(d));
  }

  lemma ResetIdempotent(p: Payload<Key>)
    requires PortsTyped(p)
    ensures Reset(Reset(p)) == Reset(p)
  {
    var q := Reset(p);
    var a, b := Physical(NumOf(p, NetSwitch)), Physical(NumOf(p, NetSubSwitch));
    var c, d := PhysicalAll(p[SwOut].a), PhysicalAll(p[SwIn].a);
    PortsUpdated(p, Num(a), Num(b), Arr(c), Arr(d));
    PhysicalIdempotent(NumOf(p, NetSwitch));
    PhysicalIdempotent(NumOf(p, NetSubSwitch));
    PhysicalAllIdempotent(p[SwOut].a);
    PhysicalAllIdempotent(p[SwIn].a);
    assert NumOf(q, NetSwitch) == a && NumOf(q, NetSubSwitch) == b && q[SwOut].a == c && q[SwIn].a == d;
    PortsTwice(p, Num(a), Num(b), Arr(c), Arr(d), Num(a), Num(b), Arr(c), Arr(d));
  }

  /** Port values as the physical switches give them: bit 7 clear. */
  predicate PhysicalPorts(p: Payload<Key>) {
    PortsTyped(p) &&
    NetSwitch in p && p[NetSwitch].Num? && 0 <= p[NetSwitch].n < 0x80 &&
    NetSubSwitch in p && p[NetSubSwitch].Num? && 0 <= p[NetSubSwitch].n < 0x80 &&
    Below(p[SwIn].a, 0x80) && Below(p[SwOut].a, 0x80)
  }

  /** Port values a controller programs: bytes with bit 7 set. */
  predicate ProgrammedPorts(p: Payload<Key>) {
    PortsTyped(p) &&
    NetSwitch in p && p[NetSwitch].Num? && 0x80 <= p[NetSwitch].n < 256 &&
    NetSubSwitch in p && p[NetSubSwitch].Num? && 0x80 <= p[NetSubSwitch].n < 256 &&
    Programs(p[SwIn].a) && Programs(p[SwOut].a)
  }

  /** Resetting after applying gives back a payload whose port values had bit 7 clear. */
  lemma ResetOfApplied(p: Payload<Key>)
    requires PhysicalPorts(p)
    ensures Reset(Applied(p)) == p
  {
    var q := Applied(p);
    var a, b := Programmed(NumOf(p, NetSwitch)), Programmed(NumOf(p, NetSubSwitch));
    var c, d := ProgramAll(p[SwOut].a), ProgramAll(p[SwIn].a);
    PortsUpdated(p, Num(a), Num(b), Arr(c), Arr(d));
    PhysicalOfProgrammed(p[NetSwitch].n);
    PhysicalOfProgrammed(p[NetSubSwitch].n);
    PhysicalOfProgramAll(p[SwOut].a);
    PhysicalOfProgramAll(p[SwIn].a);
    assert NumOf(q, NetSwitch) == a && NumOf(q, NetSubSwitch) == b && q[SwOut].a == c && q[SwIn].a == d;
    PortsRestored(p, Num(a), Num(b), Arr(c), Arr(d));
  }

  /** Applying after resetting gives back a payload whose port values had bit 7 set. */
  lemma AppliedOfReset(p: Payload<Key>)
    requires ProgrammedPorts(p)
    ensures Applied(Reset(p)) == p
  {
    var q := Reset(p);
    var a, b := Physical(NumOf(p, NetSwitch)), Physical(NumOf(p, NetSubSwitch));
    var c, d := PhysicalAll(p[SwOut].a), PhysicalAll(p[SwIn].a);
    PortsUpdated(p, Num(a), Num(b), Arr(c), Arr(d));
    ProgrammedOfPhysical(p[NetSwitch].n);
    ProgrammedOfPhysical(p[NetSubSwitch].n);
    ProgramOfPhysicalAll(p[SwOut].a);
    ProgramOfPhysicalAll(p[SwIn].a);
    assert NumOf(q, NetSwitch) == a && NumOf(q, NetSubSwitch) == b && q[SwOut].a == c && q[SwIn].a == d;
    PortsRestored(p, Num(a), Num(b), Arr(c), Arr(d));
  }

  // ---------------------------------------------------------------- the class

  class Address {
    var payload: Payload<Key>
    const schema: Schema<Key>

    ghost predicate Valid()
      reads this, schema
    {
      schema.entries == Layout(AddressSchema())
    }

    /** `new Address(payload)`: the defaults, then the overrides. */
    constructor (o: Payload<Key>)
      ensures Valid() && fresh(schema)
      ensures payload == AddressPayload(o)
    {
      payload := AddressPayload(o);
      LayoutListed();
      schema := new Schema(Layout(AddressSchema()));
    }

    method Encode() returns (r: Result<seq<byte>>)
      requires Valid()
      ensures r == Encoded(payload, Layout(AddressSchema()))
    {
      r := Encoder.Encode(payload, schema);
    }

    method Decode(buffer: array<byte>) returns (r: Result<Payload<Key>>)
      requires Valid()
      modifies buffer
      ensures (r, buffer[..]) == Decoded(old(buffer[..]), Layout(AddressSchema()))
      ensures payload == old(payload)
    {
      r := Encoder.Decode(buffer, schema);
    }

    /** `applyPortsConfig`: set bit 7 of both switch bytes and of every port byte. */
    method ApplyPortsConfig()
      requires Valid() && PortsTyped(payload)
      modifies this
      ensures Valid() && payload == Applied(old(payload))
    {
      payload := payload[NetSwitch := Num(Or(NumOf(payload, NetSwitch), PROGRAM_BIT))];
      payload := payload[NetSubSwitch := Num(Or(NumOf(payload, NetSubSwitch), PROGRAM_BIT))];
      payload := payload[SwOut := Arr(ProgramAll(payload[SwOut].a))];
      payload := payload[SwIn := Arr(ProgramAll(payload[SwIn].a))];
    }

    /** `resetToPhysicalPortsConfig`: clear bit 7 of the same bytes. */
    method ResetToPhysicalPortsConfig()
      requires Valid() && PortsTyped(payload)
      modifies this
      ensures Valid() && payload == Reset(old(payload))
    {
      payload := payload[NetSwitch := Num(And(NumOf(payload, NetSwitch), PHYSICAL_MASK))];
      payload := payload[NetSubSwitch := Num(And(NumOf(payload, NetSubSwitch), PHYSICAL_MASK))];
      payload := payload[SwOut := Arr(PhysicalAll(payload[SwOut].a))];
      payload := payload[SwIn := Arr(PhysicalAll(payload[SwIn].a))];
    }
  }

  // ---------------------------------------------------------------- the packet

  lemma LayoutListed()
    ensures OrderedMaps.FromList(Layout(AddressSchema())) == Layout(AddressSchema())
  {
    Records();
    LayoutUnique(AddressSchema());
    OrderedMaps.FromListUnique(Layout(AddressSchema()));
  }

  /** 97 bytes after the header, 107 in all. */
  lemma Sizes()
    ensures CalcBytes(AddressSchema()) == PackedSize(AddressSchema()) == 97
    ensures CalcBytes(Layout(AddressSchema())) == 107
  {
    Sums();
    Schemas.Sizes(AddressSchema(), 97, 97);
    SizesAppend(HeaderSchema(), AddressSchema());
    HeaderLength();
  }

  lemma Sums()
    ensures CalcFrom(AddressSchema(), 0) == 97 && PackedFrom(AddressSchema(), 0) == 97
  {
  }

  lemma Records()
    ensures OneByteArrays(AddressSchema()) && OrderedMaps.UniqueKeys(AddressSchema())
    ensures OrderedMaps.Apart(HeaderSchema(), AddressSchema())
  {
  }

  lemma Texts()
    ensures |Ascii("ArtNet-Node")| == 11 && 0 !in Ascii("ArtNet-Node")
    ensures |Ascii("short")| == 5 && 0 !in Ascii("short")
    ensures |Ascii("Very long name")| == 14 && 0 !in Ascii("Very long name")
  {
  }

  lemma DefaultsRecoverable()
    ensures AllRecoverable(AddressDefaults(), AddressSchema())
    ensures forall k :: k in AddressDefaults() ==> k in KeysOf(AddressSchema())
  {
    Texts();
    assert Matches(DefaultEntries(), AddressSchema());
    Records();
    ObjectMatches(DefaultEntries(), AddressSchema());
  }

  lemma Shape()
    ensures PacketShape(OP_ADDRESS, AddressDefaults(), AddressSchema())
  {
    Records();
    DefaultsRecoverable();
    ShapeOf(OP_ADDRESS, AddressDefaults(), AddressSchema());
  }

  /** Every Address built from fitting overrides decodes back to its payload. */
  lemma RoundTrip(o: Payload<Key>)
    requires Fits(o, Layout(AddressSchema()))
    ensures Encoded(AddressPayload(o), Layout(AddressSchema())).Ok?
    ensures Decoded(Encoded(AddressPayload(o), Layout(AddressSchema())).value, Layout(AddressSchema())).0
         == Ok(AddressPayload(o))
  {
    Shape();
    PacketRoundTrip(OP_ADDRESS, AddressDefaults(), o, AddressSchema());
  }

  /** `create` of an encoded Address rebuilds it, so it re-encodes to the same bytes. */
  lemma CreateOfEncoded(o: Payload<Key>)
    requires Override(o, AddressSchema())
    ensures Encoded(AddressPayload(o), Layout(AddressSchema())).Ok?
    ensures Create(Encoded(AddressPayload(o), Layout(AddressSchema())).value) == Ok(Some(AddressPayload(o)))
  {
    Shape();
    ArtNetPackets.CreateOfEncoded(OP_ADDRESS, AddressDefaults(), o, AddressSchema());
  }

  /** An Address built from fitting overrides holds a recoverable value in each port field. */
  lemma PortFields(o: Payload<Key>)
    requires Override(o, AddressSchema())
    ensures var p := AddressPayload(o);
      NetSwitch in p && Recoverable(p[NetSwitch], NumberField(1, BE)) &&
      NetSubSwitch in p && Recoverable(p[NetSubSwitch], NumberField(1, BE)) &&
      SwIn in p && Recoverable(p[SwIn], ArrayField(4, 1, LE)) &&
      SwOut in p && Recoverable(p[SwOut], ArrayField(4, 1, LE))
  {
    var p, s := AddressPayload(o), AddressSchema();
    assert AllRecoverable(p, Layout(s)) by {
      Shape();
      MergedRecoverable(OP_ADDRESS, AddressDefaults(), o, s);
    }
    FieldOfLayout(p, s, 1, NetSwitch, NumberField(1, BE));
    FieldOfLayout(p, s, 7, NetSubSwitch, NumberField(1, BE));
    FieldOfLayout(p, s, 5, SwIn, ArrayField(4, 1, LE));
    FieldOfLayout(p, s, 6, SwOut, ArrayField(4, 1, LE));
  }

  /** A value a byte field recovers is a byte. */
  lemma ByteValue(v: Value)
    requires Recoverable(v, NumberField(1, BE))
    ensures v.Num? && 0 <= v.n < 256
  {
  }

  /** A value a four-byte array field recovers is four bytes. */
  lemma BytesValue(v: Value)
    requires Recoverable(v, ArrayField(4, 1, LE))
    ensures v.Arr? && |v.a| == 4 && Bytes(v.a)
  {
  }

  /** The values an Address built from fitting overrides holds: a byte in each switch,
      four bytes in each port array. */
  lemma PortValues(o: Payload<Key>)
    requires Override(o, AddressSchema())
    ensures var p := AddressPayload(o);
      PortsTyped(p) && NetSwitch in p && NetSubSwitch in p &&
      p[NetSwitch].Num? && 0 <= p[NetSwitch].n < 256 && p[NetSubSwitch].Num? && 0 <= p[NetSubSwitch].n < 256 &&
      |p[SwIn].a| == 4 && Bytes(p[SwIn].a) && |p[SwOut].a| == 4 && Bytes(p[SwOut].a)
  {
    var p := AddressPayload(o);
    PortFields(o);
    ByteValue(p[NetSwitch]);
    ByteValue(p[NetSubSwitch]);
    BytesValue(p[SwIn]);
    BytesValue(p[SwOut]);
  }

  /** Overriding the four port values of fitting overrides with byte values, in the order
      the transforms write them, is updating the packet. */
  lemma PortOverrides(o: Payload<Key>, a: int, b: int, c: seq<int>, d: seq<int>)
    requires Override(o, AddressSchema())
    requires 0 <= a < 256 && 0 <= b < 256 && |c| == 4 && Bytes(c) && |d| == 4 && Bytes(d)
    ensures var o' := o[NetSwitch := Num(a)][NetSubSwitch := Num(b)][SwOut := Arr(c)][SwIn := Arr(d)];
      Override(o', AddressSchema()) &&
      AddressPayload(o)[NetSwitch := Num(a)][NetSubSwitch := Num(b)][SwOut := Arr(c)][SwIn := Arr(d)]
      == AddressPayload(o')
  {
    Records();
    var s, D := AddressSchema(), AddressDefaults();
    var o1 := o[NetSwitch := Num(a)];
    OverrideSet(o, s, 1, Num(a));
    var o2 := o1[NetSubSwitch := Num(b)];
    OverrideSet(o1, s, 7, Num(b));
    var o3 := o2[SwOut := Arr(c)];
    OverrideSet(o2, s, 6, Arr(c));
    OverrideSet(o3, s, 5, Arr(d));
    SetAfterMerge(OP_ADDRESS, D, o, NetSwitch, Num(a));
    SetAfterMerge(OP_ADDRESS, D, o1, NetSubSwitch, Num(b));
    SetAfterMerge(OP_ADDRESS, D, o2, SwOut, Arr(c));
    SetAfterMerge(OP_ADDRESS, D, o3, SwIn, Arr(d));
  }

  /** `applyPortsConfig` on an Address built from fitting overrides gives an Address built
      from fitting overrides, so it still encodes and decodes back to itself. */
  lemma AppliedRoundTrip(o: Payload<Key>)
    requires Override(o, AddressSchema())
    ensures PortsTyped(AddressPayload(o))
    ensures var p := Applied(AddressPayload(o));
      Encoded(p, Layout(AddressSchema())).Ok? &&
      Decoded(Encoded(p, Layout(AddressSchema())).value, Layout(AddressSchema())).0 == Ok(p)
  {
    var p := AddressPayload(o);
    PortValues(o);
    ProgrammedByte(p[NetSwitch].n);
    ProgrammedByte(p[NetSubSwitch].n);
    ProgramAllBytes(p[SwOut].a);
    ProgramAllBytes(p[SwIn].a);
    var a, b := Programmed(NumOf(p, NetSwitch)), Programmed(NumOf(p, NetSubSwitch));
    var c, d := ProgramAll(p[SwOut].a), ProgramAll(p[SwIn].a);
    PortOverrides(o, a, b, c, d);
    RoundTrip(o[NetSwitch := Num(a)][NetSubSwitch := Num(b)][SwOut := Arr(c)][SwIn := Arr(d)]);
  }

  /** The same for `resetToPhysicalPortsConfig`. */
  lemma ResetRoundTrip(o: Payload<Key>)
    requires Override(o, AddressSchema())
    ensures PortsTyped(AddressPayload(o))
    ensures var p := Reset(AddressPayload(o));
      Encoded(p, Layout(AddressSchema())).Ok? &&
      Decoded(Encoded(p, Layout(AddressSchema())).value, Layout(AddressSchema())).0 == Ok(p)
  {
    var p := AddressPayload(o);
    PortValues(o);
    PhysicalLow(p[NetSwitch].n);
    PhysicalLow(p[NetSubSwitch].n);
    PhysicalAllBelow(p[SwOut].a);
    PhysicalAllBelow(p[SwIn].a);
    var a, b := Physical(NumOf(p, NetSwitch)), Physical(NumOf(p, NetSubSwitch));
    var c, d := PhysicalAll(p[SwOut].a), PhysicalAll(p[SwIn].a);
    PortOverrides(o, a, b, c, d);
    RoundTrip(o[NetSwitch := Num(a)][NetSubSwitch := Num(b)][SwOut := Arr(c)][SwIn := Arr(d)]);
  }

  // ---------------------------------------------------------------- the package's test payload

  function TestPayload(): Payload<Key> {
    Object(TestEntries())
  }

  function TestEntries(): seq<(Key, Value)> {
    [(ProtoVersion, Num(PROTOCOL_VERSION)), (NetSwitch, Num(5)), (BindIndex, Num(1)),
     (ShortName, Str(Ascii("short"))), (LongName, Str(Ascii("Very long name"))),
     (SwIn, Arr([1, 2, 3, 4])), (SwOut, Arr([4, 3, 2, 1])), (NetSubSwitch, Num(10)),
     (SwVideo, Num(0)), (Command, Num(3))]
  }

  /** The test payload names every field, each with a value that survives a round trip. */
  lemma TestOverride()
    ensures Override(TestPayload(), AddressSchema())
    ensures forall i :: 0 <= i < |AddressSchema()| ==> AddressSchema()[i].0 in TestPayload()
  {
    Records();
    Texts();
    assert Matches(TestEntries(), AddressSchema());
    ObjectMatches(TestEntries(), AddressSchema());
    OverrideOf(TestPayload(), AddressSchema());
  }

  /** The test payload overrides every default. */
  lemma TestMerge()
    ensures AddressPayload(TestPayload()) == WithHeader(OP_ADDRESS, TestPayload())
  {
    DefaultsRecoverable();
    TestOverride();
    FullOverride(AddressDefaults(), TestPayload(), AddressSchema());
  }

  /** The package's test: decoding the encoded test packet gives the header and the test
      payload. */
  lemma TestRoundTrip()
    ensures Encoded(AddressPayload(TestPayload()), Layout(AddressSchema())).Ok?
    ensures Decoded(Encoded(AddressPayload(TestPayload()), Layout(AddressSchema())).value, Layout(AddressSchema())).0
         == Ok(WithHeader(OP_ADDRESS, TestPayload()))
  {
    TestOverride();
    TestMerge();
    RoundTrip(TestPayload());
  }

  /** The package's test: `create` on the encoded test packet rebuilds it. */
  lemma TestCreate()
    ensures Encoded(AddressPayload(TestPayload()), Layout(AddressSchema())).Ok?
    ensures Create(Encoded(AddressPayload(TestPayload()), Layout(AddressSchema())).value)
         == Ok(Some(AddressPayload(TestPayload())))
  {
    TestOverride();
    CreateOfEncoded(TestPayload());
  }

  /** 0x05 → 0x85 → 0x05: the example the two transforms are documented by. */
  lemma ProgramExample()
    ensures Programmed(0x05) == 0x85 && Physical(0x85) == 0x05
  {
    ProgrammedByte(0x05);
    PhysicalOfProgrammed(0x05);
  }
}
