/** packages/artnet-packets/lib/poll: ArtPoll, the discovery request. Its builder methods
    set or clear single bits of the `flags` byte with JavaScript's 32-bit `|=` and `&= ~`. */
module PollPacket {
  import opened Wrappers
  import opened ByteOrder
  import opened Schemas
  import opened Encoder
  import OrderedMaps
  import opened ArtNetPackets
  import opened JsNumbers

  // NODE_BEHAVIOUR_MASK: single bits of the ArtPoll Flags field, as Art-Net 4 numbers them.
  /** Bit 1: send an ArtPollReply whenever the node's conditions change. */
  const SEND_POLICY: int := 0x02
  /** Bit 2: send diagnostics messages. */
  const SEND_DIAGNOSTICS: int := 0x04
  /** Bit 3: diagnostics messages are unicast (set) or broadcast (clear). */
  const DIAGNOSTICS_MESSAGE_POLICY: int := 0x08
  /** Bit 4: VLC transmission is disabled (set) or enabled (clear). */
  const VLC_TRANSMISSION: int := 0x10
  /** Bit 5: targeted mode. */
  const TARGETED_MODE: int := 0x20

  /** Each mask is the single bit its comment names. */
  lemma MaskBits()
    ensures SEND_POLICY == Pow2(1) && SEND_DIAGNOSTICS == Pow2(2) && DIAGNOSTICS_MESSAGE_POLICY == Pow2(3)
    ensures VLC_TRANSMISSION == Pow2(4) && TARGETED_MODE == Pow2(5)
  {
    Pow2Values();
  }

  /** The keys of DIAG_PRIORITY. */
  datatype DiagPriority = DpLow | DpMed | DpHigh | DpCritical | DpVolatile

  /** DIAG_PRIORITY: the diagnostics priority codes of Art-Net 4. */
  function PriorityCode(p: DiagPriority): (r: int)
    ensures 0 < r < 256
  {
    match p
    case DpLow => 0x10
    case DpMed => 0x40
    case DpHigh => 0x80
    case DpCritical => 0xe0
    case DpVolatile => 0xf0
  }

  lemma PriorityCodes()
    ensures PriorityCode(DpLow) == 0x10 && PriorityCode(DpHigh) == 0x80 && PriorityCode(DpCritical) == 0xe0
  {
  }

  /** `schemaDefault`: eight bytes after the header. */
  function PollSchema(): seq<(Key, Field)> {
    [(ProtoVersion, NumberField(2, BE)), (Flags, NumberField(1, BE)), (DiagPriority, NumberField(1, BE)),
     (TargetPortAddressTop, NumberField(2, BE)), (TargetPortAddressBottom, NumberField(2, BE))]
  }

  /** The constructor's defaults: protocol version 14, priority DpLow, no flags, and a
      target range of 0..0. */
  function PollDefaults(): Payload<Key> {
    Object(DefaultEntries())
  }

  function DefaultEntries(): seq<(Key, Value)> {
    [(ProtoVersion, Num(PROTOCOL_VERSION)), (Flags, Num(0)), (DiagPriority, Num(PriorityCode(DpLow))),
     (TargetPortAddressTop, Num(0)), (TargetPortAddressBottom, Num(0))]
  }

  // ---------------------------------------------------------------- flag bits

  /** `flags |= mask` when on, `flags &= ~mask` when off. */
  function SetFlag(flags: int, mask: int, on: bool): int {
    if on then Or(flags, mask) else AndNot(flags, mask)
  }

  /** The number the builders read from `flags`; the payload type makes it a number, and
      JavaScript's bitwise operators read anything else as 0. */
  function FlagsOf(p: Payload<Key>): int {
    if Flags in p && p[Flags].Num? then p[Flags].n else 0
  }

  /** For a flags value below 2^31, writing one bit is adding or subtracting its weight. */
  lemma SetFlagValue(f: int, bit: nat, on: bool)
    requires 0 <= f < TWO_31 && bit < 31
    ensures SetFlag(f, Pow2(bit), on) ==
      if on then (if Bit(f, bit) == 1 then f else f + Pow2(bit))
      else (if Bit(f, bit) == 1 then f - Pow2(bit) else f)
  {
    if on {
      OrSingleBit(f, bit);
    } else {
      AndNotSingleBit(f, bit);
    }
  }

  /** A builder sets or clears its own bit and keeps every other bit, so a flags value of
      n bits stays one of n bits. */
  lemma FlagBits(f: int, bit: nat, on: bool, n: nat)
    requires 0 <= f < Pow2(n) && bit < n <= 31
    ensures 0 <= SetFlag(f, Pow2(bit), on) < Pow2(n)
    ensures Bit(SetFlag(f, Pow2(bit), on), bit) == if on then 1 else 0
    ensures forall j :: j != bit ==> Bit(SetFlag(f, Pow2(bit), on), j) == Bit(f, j)
  {
    assert f < TWO_31 by {
      Pow2Monotone(n, 31);
      Pow2Values();
    }
    if on {
      OrBits(f, bit, n);
    } else {
      AndNotBits(f, bit, n);
    }
  }

  lemma OrBits(f: nat, bit: nat, n: nat)
    requires f < Pow2(n) && f < TWO_31 && bit < n <= 31
    ensures 0 <= Or(f, Pow2(bit)) < Pow2(n) && Bit(Or(f, Pow2(bit)), bit) == 1
    ensures forall j :: j != bit ==> Bit(Or(f, Pow2(bit)), j) == Bit(f, j)
  {
    OrSingleBit(f, bit);
    if Bit(f, bit) == 0 {
      SetBit(f, bit, n);
    }
  }

  lemma AndNotBits(f: nat, bit: nat, n: nat)
    requires f < Pow2(n) && f < TWO_31 && bit < n <= 31
    ensures 0 <= AndNot(f, Pow2(bit)) < Pow2(n) && Bit(AndNot(f, Pow2(bit)), bit) == 0
    ensures forall j :: j != bit ==> Bit(AndNot(f, Pow2(bit)), j) == Bit(f, j)
  {
    AndNotSingleBit(f, bit);
    if Bit(f, bit) == 1 {
      ClearBit(f, bit);
    }
  }

  lemma SetBit(f: nat, bit: nat, n: nat)
    requires f < Pow2(n) && bit < n && Bit(f, bit) == 0
    ensures f + Pow2(bit) < Pow2(n)
    ensures forall j :: Bit(f + Pow2(bit), j) == if j == bit then 1 else Bit(f, j)
  {
    BitClearRoom(f, bit, n);
    forall j ensures Bit(f + Pow2(bit), j) == if j == bit then 1 else Bit(f, j) {
      BitsOfAddPow2(f, bit, j);
    }
  }

  lemma ClearBit(f: nat, bit: nat)
    requires Bit(f, bit) == 1
    ensures f >= Pow2(bit)
    ensures forall j :: Bit(f - Pow2(bit), j) == if j == bit then 0 else Bit(f, j)
  {
    BitSetAtLeast(f, bit);
    forall j ensures Bit(f - Pow2(bit), j) == if j == bit then 0 else Bit(f, j) {
      BitsOfSubPow2(f, bit, j);
    }
  }

  /** Calling a builder twice with the same argument is calling it once. */
  lemma SetFlagIdempotent(f: int, mask: int, on: bool)
    ensures SetFlag(SetFlag(f, mask, on), mask, on) == SetFlag(f, mask, on)
  {
    if on {
      OrIdempotent(f, mask);
    } else {
      AndNotIdempotent(f, mask);
    }
  }

  /** The constructor's closing builder chain: send diagnostics, broadcast them, and reply
      on every change. */
  function Forced(flags: int): int {
    SetFlag(SetFlag(SetFlag(flags, SEND_DIAGNOSTICS, true), DIAGNOSTICS_MESSAGE_POLICY, false), SEND_POLICY, true)
  }

  /** The chain sets bits 1 and 2, clears bit 3, and keeps every other bit. */
  lemma ForcedBits(f: int, n: nat)
    requires 0 <= f < Pow2(n) && 4 <= n <= 31
    ensures 0 <= Forced(f) < Pow2(n)
    ensures Bit(Forced(f), 1) == 1 && Bit(Forced(f), 2) == 1 && Bit(Forced(f), 3) == 0
    ensures forall j :: j != 1 && j != 2 && j != 3 ==> Bit(Forced(f), j) == Bit(f, j)
  {
    MaskBits();
    var a := SetFlag(f, Pow2(2), true);
    FlagBits(f, 2, true, n);
    var b := SetFlag(a, Pow2(3), false);
    FlagBits(a, 3, false, n);
    FlagBits(b, 1, true, n);
  }

  /** A packet's flags already carry the forced bits, so forcing them again changes
      nothing; this is why `create` can rebuild a Poll through its constructor. */
  lemma {:induction false} ForcedIdempotent(f: int)
    requires 0 <= f < TWO_31
    ensures Forced(Forced(f)) == Forced(f)
  {
    assert Pow2(31) == TWO_31 by { Pow2Values(); }
    ForcedBits(f, 31);
    var g := Forced(f);
    MaskBits();
    SetFlagValue(g, 2, true);
    SetFlagValue(g, 3, false);
    SetFlagValue(g, 1, true);
  }

  // ---------------------------------------------------------------- packets

  /** `flags` after the constructor's builder chain. */
  function ForceFlags(p: Payload<Key>): Payload<Key> {
    p[Flags := Num(Forced(FlagsOf(p)))]
  }

  /** The payload `new Poll(payload)` holds: defaults, overrides, header, then the forced
      flag bits. */
  function PollPayload(o: Payload<Key>): Payload<Key> {
    ForceFlags(WithHeader(OP_POLL, PollDefaults() + o))
  }

  /** The three builder calls, one payload after another, force the flags. */
  lemma ForceChain(p0: Payload<Key>, p1: Payload<Key>, p2: Payload<Key>, p3: Payload<Key>)
    requires p1 == p0[Flags := Num(SetFlag(FlagsOf(p0), SEND_DIAGNOSTICS, true))]
    requires p2 == p1[Flags := Num(SetFlag(FlagsOf(p1), DIAGNOSTICS_MESSAGE_POLICY, false))]
    requires p3 == p2[Flags := Num(SetFlag(FlagsOf(p2), SEND_POLICY, true))]
    ensures p3 == ForceFlags(p0)
  {
    var a := SetFlag(FlagsOf(p0), SEND_DIAGNOSTICS, true);
    var b := SetFlag(a, DIAGNOSTICS_MESSAGE_POLICY, false);
    var c := SetFlag(b, SEND_POLICY, true);
    assert FlagsOf(p1) == a && FlagsOf(p2) == b;
    assert c == Forced(FlagsOf(p0));
    UpdateTwice(p0, Num(a), Num(b), Num(c));
  }

  lemma UpdateTwice(p: Payload<Key>, a: Value, b: Value, c: Value)
    ensures p[Flags := a][Flags := b][Flags := c] == p[Flags := c]
  {
  }

  function Is(data: seq<byte>): Result<bool> {
    IsOp(data, OP_POLL)
  }

  /** `create`: null for a datagram of another kind, else a Poll built from the decoded
      payload, so the constructor forces the flag bits again. */
  function Create(data: seq<byte>): (r: Result<Option<Payload<Key>>>)
    ensures Is(data) == Ok(false) ==> r == Ok(None)
    ensures r.Ok? && r.value.Some? ==> Is(data) == Ok(true)
  {
    match CreateFrom(data, OP_POLL, PollDefaults(), PollSchema())
    case Ok(Some(q)) => Ok(Some(ForceFlags(q)))
    case other => other
  }

  class Poll {
    var payload: Payload<Key>
    const schema: Schema<Key>

    ghost predicate Valid()
      reads this, schema
    {
      schema.entries == Layout(PollSchema())
    }

    /** `new Poll(payload)`: merge, then `sendMeDiagnostics(true)`,
        `setDiagnosticsPolicy('BROADCAST')` and
        `setArtPollReplyPolicy('ON_NODE_CONDITION_CHANGE')`. */
    constructor (o: Payload<Key>)
      ensures Valid() && fresh(schema)
      ensures payload == PollPayload(o)
    {
      payload := WithHeader(OP_POLL, PollDefaults() + o);
      LayoutListed();
      schema := new Schema(Layout(PollSchema()));
      new;
      ghost var p0 := payload;
      SendMeDiagnostics(true);
      ghost var p1 := payload;
      SetDiagnosticsPolicy("BROADCAST");
      assert "BROADCAST" != "UNICAST";
      ghost var p2 := payload;
      SetArtPollReplyPolicy("ON_NODE_CONDITION_CHANGE");
      ForceChain(p0, p1, p2, payload);
    }

    method Encode() returns (r: Result<seq<byte>>)
      requires Valid()
      ensures r == Encoded(payload, Layout(PollSchema()))
    {
      r := Encoder.Encode(payload, schema);
    }

    method Decode(buffer: array<byte>) returns (r: Result<Payload<Key>>)
      requires Valid()
      modifies buffer
      ensures (r, buffer[..]) == Decoded(old(buffer[..]), Layout(PollSchema()))
      ensures payload == old(payload)
    {
      r := Encoder.Decode(buffer, schema);
    }

    method SetDiagPriority(priority: DiagPriority)
      requires Valid()
      modifies this
      ensures Valid() && payload == old(payload)[DiagPriority := Num(PriorityCode(priority))]
    {
      payload := payload[DiagPriority := Num(PriorityCode(priority))];
    }

    /** `setTargetPort(top = 0, bottom = 0)`. */
    method SetTargetPort(top: int, bottom: int)
      requires Valid()
      modifies this
      ensures Valid()
      ensures payload == old(payload)[TargetPortAddressTop := Num(top)][TargetPortAddressBottom := Num(bottom)]
    {
      payload := payload[TargetPortAddressTop := Num(top)];
      payload := payload[TargetPortAddressBottom := Num(bottom)];
    }

    method SetTargetedMode(enable: bool)
      requires Valid()
      modifies this
      ensures Valid() && payload == old(payload)[Flags := Num(SetFlag(FlagsOf(old(payload)), TARGETED_MODE, enable))]
    {
      var flags := FlagsOf(payload);
      payload := payload[Flags := Num(if enable then Or(flags, TARGETED_MODE) else AndNot(flags, TARGETED_MODE))];
    }

    /** Enabling VLC transmission clears the bit and disabling it sets the bit. */
    method SetVlcTransmission(enable: bool)
      requires Valid()
      modifies this
      ensures Valid() && payload == old(payload)[Flags := Num(SetFlag(FlagsOf(old(payload)), VLC_TRANSMISSION, !enable))]
    {
      var flags := FlagsOf(payload);
      if enable {
        payload := payload[Flags := Num(AndNot(flags, VLC_TRANSMISSION))];
      } else {
        payload := payload[Flags := Num(Or(flags, VLC_TRANSMISSION))];
      }
    }

    method SetDiagnosticsPolicy(policy: string)
      requires Valid()
      modifies this
      ensures Valid()
      ensures payload == old(payload)[Flags := Num(SetFlag(FlagsOf(old(payload)), DIAGNOSTICS_MESSAGE_POLICY, policy == "UNICAST"))]
    {
      var flags := FlagsOf(payload);
      if policy == "UNICAST" {
        payload := payload[Flags := Num(Or(flags, DIAGNOSTICS_MESSAGE_POLICY))];
      } else {
        payload := payload[Flags := Num(AndNot(flags, DIAGNOSTICS_MESSAGE_POLICY))];
      }
    }

    method SendMeDiagnostics(shouldSend: bool)
      requires Valid()
      modifies this
      ensures Valid() && payload == old(payload)[Flags := Num(SetFlag(FlagsOf(old(payload)), SEND_DIAGNOSTICS, shouldSend))]
    {
      var flags := FlagsOf(payload);
      if shouldSend {
        payload := payload[Flags := Num(Or(flags, SEND_DIAGNOSTICS))];
      } else {
        payload := payload[Flags := Num(AndNot(flags, SEND_DIAGNOSTICS))];
      }
    }

    method SetArtPollReplyPolicy(policy: string)
      requires Valid()
      modifies this
      ensures Valid()
      ensures payload == old(payload)[Flags := Num(SetFlag(FlagsOf(old(payload)), SEND_POLICY, policy == "ON_NODE_CONDITION_CHANGE"))]
    {
      var flags := FlagsOf(payload);
      if policy == "ON_NODE_CONDITION_CHANGE" {
        payload := payload[Flags := Num(Or(flags, SEND_POLICY))];
      } else {
        payload := payload[Flags := Num(AndNot(flags, SEND_POLICY))];
      }
    }
  }

  // ---------------------------------------------------------------- round trips

  lemma Records()
    ensures OneByteArrays(PollSchema()) && OrderedMaps.UniqueKeys(PollSchema())
    ensures OrderedMaps.Apart(HeaderSchema(), PollSchema())
  {
  }

  /** The layout's keys are distinct, so building a `Map` from it keeps it as it is. */
  lemma LayoutListed()
    ensures OrderedMaps.FromList(Layout(PollSchema())) == Layout(PollSchema())
  {
    Records();
    LayoutUnique(PollSchema());
    OrderedMaps.FromListUnique(Layout(PollSchema()));
  }

  /** Entries that name the five Poll fields in schema order. */
  predicate InSchemaOrder(e: seq<(Key, Value)>) {
    |e| == 5 && e[0].0 == ProtoVersion && e[1].0 == Flags && e[2].0 == DiagPriority &&
    e[3].0 == TargetPortAddressTop && e[4].0 == TargetPortAddressBottom
  }

  /** The object such entries spell holds each entry's value under its key, and no other key. */
  lemma ObjectValues(e: seq<(Key, Value)>)
    requires InSchemaOrder(e)
    ensures var o := Object(e);
      ProtoVersion in o && Flags in o && DiagPriority in o && TargetPortAddressTop in o && TargetPortAddressBottom in o &&
      o[ProtoVersion] == e[0].1 && o[Flags] == e[1].1 && o[DiagPriority] == e[2].1 &&
      o[TargetPortAddressTop] == e[3].1 && o[TargetPortAddressBottom] == e[4].1
    ensures forall k :: k in Object(e) ==> k in KeysOf(PollSchema())
  {
    LookupAt(e, 0);
    LookupAt(e, 1);
    LookupAt(e, 2);
    LookupAt(e, 3);
    LookupAt(e, 4);
    forall k | k in Object(e) ensures k in KeysOf(PollSchema()) {
      var i :| 0 <= i < |e| && e[i].0 == k;
      assert PollSchema()[i].0 == k;
    }
  }

  /** Entries whose values survive their fields spell an override naming every field. */
  lemma ObjectOverride(e: seq<(Key, Value)>)
    requires InSchemaOrder(e) && forall i :: 0 <= i < 5 ==> Recoverable(e[i].1, PollSchema()[i].1)
    ensures Override(Object(e), PollSchema()) && AllRecoverable(Object(e), PollSchema())
    ensures PollDefaults() + Object(e) == Object(e)
  {
    Records();
    assert Matches(e, PollSchema());
    ObjectMatches(e, PollSchema());
    OverrideOf(Object(e), PollSchema());
    DefaultsRecoverable();
    FullOverride(PollDefaults(), Object(e), PollSchema());
  }

  lemma DefaultsRecoverable()
    ensures AllRecoverable(PollDefaults(), PollSchema())
    ensures forall k :: k in PollDefaults() ==> k in KeysOf(PollSchema())
  {
    assert Matches(DefaultEntries(), PollSchema());
    Records();
    ObjectMatches(DefaultEntries(), PollSchema());
  }

  lemma Shape()
    ensures PacketShape(OP_POLL, PollDefaults(), PollSchema())
  {
    Records();
    DefaultsRecoverable();
    ShapeOf(OP_POLL, PollDefaults(), PollSchema());
  }

  /** The flags a Poll is built with fit a byte: an override's fits its field, and the
      default is 0. */
  lemma MergedFlags(o: Payload<Key>)
    requires Override(o, PollSchema())
    ensures 0 <= FlagsOf(WithHeader(OP_POLL, PollDefaults() + o)) < 256
  {
    if Flags in o {
      assert Layout(PollSchema())[3] == (Flags, NumberField(1, BE));
    } else {
      LookupAt(DefaultEntries(), 1);
    }
  }

  /** The forced flags fit a byte too. */
  lemma ForcedFlags(o: Payload<Key>)
    requires Override(o, PollSchema())
    ensures 0 <= Forced(FlagsOf(WithHeader(OP_POLL, PollDefaults() + o))) < 256
  {
    MergedFlags(o);
    assert Pow2(8) == 256 by { Pow2Values(); }
    ForcedBits(FlagsOf(WithHeader(OP_POLL, PollDefaults() + o)), 8);
  }

  /** A Poll is the packet built from its overrides with `flags` replaced by the forced
      value, and that value still fits its byte. */
  lemma AsOverride(o: Payload<Key>)
    requires Override(o, PollSchema())
    ensures var f := Forced(FlagsOf(WithHeader(OP_POLL, PollDefaults() + o)));
      0 <= f < 256 && Override(o[Flags := Num(f)], PollSchema()) &&
      PollPayload(o) == WithHeader(OP_POLL, PollDefaults() + o[Flags := Num(f)])
  {
    var f := Forced(FlagsOf(WithHeader(OP_POLL, PollDefaults() + o)));
    ForcedFlags(o);
    Records();
    OverrideSet(o, PollSchema(), 1, Num(f));
    SetAfterMerge(OP_POLL, PollDefaults(), o, Flags, Num(f));
  }

  /** Every Poll built from fitting overrides decodes back to its payload. */
  lemma RoundTrip(o: Payload<Key>)
    requires Override(o, PollSchema())
    ensures Encoded(PollPayload(o), Layout(PollSchema())).Ok?
    ensures Decoded(Encoded(PollPayload(o), Layout(PollSchema())).value, Layout(PollSchema())).0 == Ok(PollPayload(o))
  {
    var f := Forced(FlagsOf(WithHeader(OP_POLL, PollDefaults() + o)));
    AsOverride(o);
    Shape();
    PacketRoundTrip(OP_POLL, PollDefaults(), o[Flags := Num(f)], PollSchema());
  }

  /** A Poll's payload is its own forced form. */
  lemma ForceFlagsIdempotent(o: Payload<Key>)
    requires Override(o, PollSchema())
    ensures ForceFlags(PollPayload(o)) == PollPayload(o)
  {
    var q := WithHeader(OP_POLL, PollDefaults() + o);
    MergedFlags(o);
    assert 256 < TWO_31;
    ForcedIdempotent(FlagsOf(q));
    ForcedFixed(q[Flags := Num(Forced(FlagsOf(q)))]);
  }

  lemma ForcedFixed(p: Payload<Key>)
    requires Flags in p && p[Flags].Num? && Forced(p[Flags].n) == p[Flags].n
    ensures ForceFlags(p) == p
  {
  }

  /** `create` of an encoded Poll rebuilds it: the forced bits are already in place. */
  lemma CreateOfEncoded(o: Payload<Key>)
    requires Override(o, PollSchema())
    ensures Encoded(PollPayload(o), Layout(PollSchema())).Ok?
    ensures Create(Encoded(PollPayload(o), Layout(PollSchema())).value) == Ok(Some(PollPayload(o)))
  {
    var f := Forced(FlagsOf(WithHeader(OP_POLL, PollDefaults() + o)));
    AsOverride(o);
    Shape();
    ArtNetPackets.CreateOfEncoded(OP_POLL, PollDefaults(), o[Flags := Num(f)], PollSchema());
    ForceFlagsIdempotent(o);
  }

  /** An encoded Poll is no packet of another OpCode: that class's `is` rejects it and its
      `create` returns null. */
  lemma EncodedIsNoOther(o: Payload<Key>, other: int, defaults: Payload<Key>, t: seq<(Key, Field)>)
    requires Override(o, PollSchema()) && other != OP_POLL
    ensures Encoded(PollPayload(o), Layout(PollSchema())).Ok?
    ensures IsOp(Encoded(PollPayload(o), Layout(PollSchema())).value, other) == Ok(false)
    ensures CreateFrom(Encoded(PollPayload(o), Layout(PollSchema())).value, other, defaults, t) == Ok(None)
  {
    RoundTrip(o);
    var d := PollDefaults() + o;
    assert ID !in d && OpCode !in d && ProtoVersion in d by {
      ObjectValues(DefaultEntries());
      Records();
      HeaderKeysApart(PollSchema());
    }
    PollHeader(d);
    EncodedIsNotOther(PollPayload(o), PollSchema(), OP_POLL, other, defaults, t);
  }

  // ---------------------------------------------------------------- the package's tests

  /** Priority DpCritical, both target bounds 255, and flags 0b110. */
  function TestPayload(): Payload<Key> {
    Object(TestEntries())
  }

  function TestEntries(): seq<(Key, Value)> {
    [(ProtoVersion, Num(PROTOCOL_VERSION)), (Flags, Num(6)), (DiagPriority, Num(0xe0)),
     (TargetPortAddressTop, Num(255)), (TargetPortAddressBottom, Num(255))]
  }

  /** The test payload names every field, each with a value that survives a round trip. */
  lemma TestOverride()
    ensures Override(TestPayload(), PollSchema())
    ensures PollDefaults() + TestPayload() == TestPayload()
    ensures Flags in TestPayload() && TestPayload()[Flags] == Num(6)
  {
    ObjectOverride(TestEntries());
    ObjectValues(TestEntries());
  }

  /** Flags 0b110 already carry the forced bits. */
  lemma TestForced()
    ensures Forced(6) == 6
  {
    MaskBits();
    SetFlagValue(6, 2, true);
    SetFlagValue(6, 3, false);
    SetFlagValue(6, 1, true);
  }

  /** The test payload is the whole packet after the header. */
  lemma TestMerge()
    ensures PollPayload(TestPayload()) == WithHeader(OP_POLL, TestPayload())
  {
    TestOverride();
    TestForced();
    ForcedFixed(WithHeader(OP_POLL, TestPayload()));
  }

  /** The package's encode-decode test: decoding gives the header and the test payload,
      priority DpCritical included. */
  lemma TestRoundTrip()
    ensures Encoded(PollPayload(TestPayload()), Layout(PollSchema())).Ok?
    ensures Decoded(Encoded(PollPayload(TestPayload()), Layout(PollSchema())).value, Layout(PollSchema())).0
         == Ok(WithHeader(OP_POLL, TestPayload()))
  {
    TestOverride();
    TestMerge();
    RoundTrip(TestPayload());
  }

  /** The package's create test: `create` on the encoded test packet rebuilds it. */
  lemma TestCreate()
    ensures Encoded(PollPayload(TestPayload()), Layout(PollSchema())).Ok?
    ensures Create(Encoded(PollPayload(TestPayload()), Layout(PollSchema())).value) == Ok(Some(PollPayload(TestPayload())))
  {
    TestOverride();
    CreateOfEncoded(TestPayload());
  }

  /** The flags after the package's builder test: reply on change, no diagnostics, unicast
      diagnostics, VLC disabled. */
  lemma BuilderFlags()
    ensures SetFlag(SetFlag(SetFlag(SetFlag(Forced(0), SEND_POLICY, true), SEND_DIAGNOSTICS, false),
      DIAGNOSTICS_MESSAGE_POLICY, true), VLC_TRANSMISSION, true) == 0x1a
  {
    MaskBits();
    SetFlagValue(0, 2, true);
    SetFlagValue(4, 3, false);
    SetFlagValue(4, 1, true);
    SetFlagValue(6, 1, true);
    SetFlagValue(6, 2, false);
    SetFlagValue(2, 3, true);
    SetFlagValue(10, 4, true);
  }

  /** What the package's builder test leaves in a default Poll: `setTargetPort(21548)`
      puts 21548 in the top bound and the default 0 in the bottom one. */
  function BuiltPacket(): Payload<Key> {
    PollPayload(map[])[Flags := Num(0x1a)][DiagPriority := Num(0x80)]
      [TargetPortAddressTop := Num(21548)][TargetPortAddressBottom := Num(0)]
  }

  /** Setting every non-version field of a Poll to values in range is overriding them. */
  lemma FieldUpdates(o: Payload<Key>, f: int, d: int, t: int, b: int)
    requires Override(o, PollSchema())
    requires 0 <= f < 256 && 0 <= d < 256 && 0 <= t < 0x1_0000 && 0 <= b < 0x1_0000
    ensures var o' := o[Flags := Num(f)][DiagPriority := Num(d)][TargetPortAddressTop := Num(t)][TargetPortAddressBottom := Num(b)];
      Override(o', PollSchema()) &&
      WithHeader(OP_POLL, PollDefaults() + o)[Flags := Num(f)][DiagPriority := Num(d)]
        [TargetPortAddressTop := Num(t)][TargetPortAddressBottom := Num(b)]
      == WithHeader(OP_POLL, PollDefaults() + o')
  {
    Records();
    var o1 := o[Flags := Num(f)];
    OverrideSet(o, PollSchema(), 1, Num(f));
    var o2 := o1[DiagPriority := Num(d)];
    OverrideSet(o1, PollSchema(), 2, Num(d));
    var o3 := o2[TargetPortAddressTop := Num(t)];
    OverrideSet(o2, PollSchema(), 3, Num(t));
    OverrideSet(o3, PollSchema(), 4, Num(b));
    var D := PollDefaults();
    SetAfterMerge(OP_POLL, D, o, Flags, Num(f));
    SetAfterMerge(OP_POLL, D, o1, DiagPriority, Num(d));
    SetAfterMerge(OP_POLL, D, o2, TargetPortAddressTop, Num(t));
    SetAfterMerge(OP_POLL, D, o3, TargetPortAddressBottom, Num(b));
  }

  /** The built packet is a Poll with fitting overrides. */
  lemma BuiltOverride() returns (o: Payload<Key>)
    ensures Override(o, PollSchema()) && BuiltPacket() == WithHeader(OP_POLL, PollDefaults() + o)
  {
    var o0: Payload<Key> := map[];
    var f := Forced(FlagsOf(WithHeader(OP_POLL, PollDefaults() + o0)));
    AsOverride(o0);
    var o1 := o0[Flags := Num(f)];
    FieldUpdates(o1, 0x1a, 0x80, 21548, 0);
    o := o1[Flags := Num(0x1a)][DiagPriority := Num(0x80)][TargetPortAddressTop := Num(21548)][TargetPortAddressBottom := Num(0)];
  }

  /** Reading the fields of a packet after the builder's updates. */
  lemma UpdatedValues(p: Payload<Key>, f: Value, d: Value, t: Value, b: Value)
    requires ID in p && OpCode in p && ProtoVersion in p
    ensures var q := p[Flags := f][DiagPriority := d][TargetPortAddressTop := t][TargetPortAddressBottom := b];
      ID in q && OpCode in q && ProtoVersion in q && Flags in q && DiagPriority in q &&
      TargetPortAddressTop in q && TargetPortAddressBottom in q &&
      q[ID] == p[ID] && q[OpCode] == p[OpCode] && q[ProtoVersion] == p[ProtoVersion] &&
      q[Flags] == f && q[DiagPriority] == d && q[TargetPortAddressTop] == t && q[TargetPortAddressBottom] == b
  {
  }

  /** A Poll's header fields and protocol version, when no override names the header. */
  lemma PollHeader(d: Payload<Key>)
    requires ID !in d && OpCode !in d && ProtoVersion in d
    ensures var p := ForceFlags(WithHeader(OP_POLL, d));
      ID in p && OpCode in p && ProtoVersion in p && p[ID] == Str(ArtNetId()) &&
      p[OpCode] == Num(OP_POLL) && p[ProtoVersion] == d[ProtoVersion]
  {
  }

  /** The header, protocol version 14, flags 0b00011010, priority 0x80 (DpHigh), and
      target bounds 21548 and 0. */
  lemma BuiltPacketValues()
    ensures var p := BuiltPacket();
      ID in p && OpCode in p && ProtoVersion in p && Flags in p && DiagPriority in p &&
      TargetPortAddressTop in p && TargetPortAddressBottom in p &&
      p[ID] == Str(ArtNetId()) && p[OpCode] == Num(OP_POLL) && p[ProtoVersion] == Num(PROTOCOL_VERSION) &&
      p[Flags] == Num(0x1a) && p[DiagPriority] == Num(0x80) &&
      p[TargetPortAddressTop] == Num(21548) && p[TargetPortAddressBottom] == Num(0)
  {
    DefaultHeader();
    UpdatedValues(PollPayload(map[]), Num(0x1a), Num(0x80), Num(21548), Num(0));
  }

  /** A default Poll's header fields and protocol version 14. */
  lemma DefaultHeader()
    ensures var p := PollPayload(map[]);
      ID in p && OpCode in p && ProtoVersion in p && p[ID] == Str(ArtNetId()) &&
      p[OpCode] == Num(OP_POLL) && p[ProtoVersion] == Num(PROTOCOL_VERSION)
  {
    var d := PollDefaults();
    assert ID !in d && OpCode !in d && ProtoVersion in d && d[ProtoVersion] == Num(PROTOCOL_VERSION) by {
      ObjectValues(DefaultEntries());
      Records();
      HeaderKeysApart(PollSchema());
    }
    assert d + map[] == d;
    PollHeader(d);
  }

  /** The built packet decodes back to itself. */
  lemma BuiltRoundTrip()
    ensures Encoded(BuiltPacket(), Layout(PollSchema())).Ok?
    ensures Decoded(Encoded(BuiltPacket(), Layout(PollSchema())).value, Layout(PollSchema())).0 == Ok(BuiltPacket())
  {
    var o := BuiltOverride();
    Shape();
    PacketRoundTrip(OP_POLL, PollDefaults(), o, PollSchema());
  }

  /** A default Poll's flags are the forced bits alone. */
  lemma DefaultFlags()
    ensures FlagsOf(PollPayload(map[])) == Forced(0)
  {
    var d := PollDefaults();
    assert Flags in d && d[Flags] == Num(0) by {
      ObjectValues(DefaultEntries());
    }
    assert d + map[] == d;
  }

  /** The builder calls, flags first, in the order the test makes them. */
  lemma BuilderUpdates<K, V>(p: map<K, V>, flags: K, priority: K, top: K, bottom: K,
                              f1: V, f2: V, f3: V, d: V, f4: V, t: V, b: V)
    requires flags != priority && flags != top && flags != bottom
    ensures p[flags := f1][flags := f2][flags := f3][priority := d][flags := f4][top := t][bottom := b]
         == p[flags := f4][priority := d][top := t][bottom := b]
  {
  }

  /** The builder test's calls, one payload after the next, from the default flags. */
  lemma BuilderChain(p0: Payload<Key>, p1: Payload<Key>, p2: Payload<Key>, p3: Payload<Key>,
                     p4: Payload<Key>, p5: Payload<Key>, p6: Payload<Key>)
    requires FlagsOf(p0) == Forced(0)
    requires p1 == p0[Flags := Num(SetFlag(FlagsOf(p0), SEND_POLICY, true))]
    requires p2 == p1[Flags := Num(SetFlag(FlagsOf(p1), SEND_DIAGNOSTICS, false))]
    requires p3 == p2[Flags := Num(SetFlag(FlagsOf(p2), DIAGNOSTICS_MESSAGE_POLICY, true))]
    requires p4 == p3[DiagPriority := Num(0x80)]
    requires p5 == p4[Flags := Num(SetFlag(FlagsOf(p4), VLC_TRANSMISSION, true))]
    requires p6 == p5[TargetPortAddressTop := Num(21548)][TargetPortAddressBottom := Num(0)]
    ensures p6 == p0[Flags := Num(0x1a)][DiagPriority := Num(0x80)][TargetPortAddressTop := Num(21548)][TargetPortAddressBottom := Num(0)]
  {
    var f1 := SetFlag(Forced(0), SEND_POLICY, true);
    var f2 := SetFlag(f1, SEND_DIAGNOSTICS, false);
    var f3 := SetFlag(f2, DIAGNOSTICS_MESSAGE_POLICY, true);
    var f4 := SetFlag(f3, VLC_TRANSMISSION, true);
    assert FlagsOf(p3) == f3;
    BuilderFlags();
    BuilderUpdates(p0, Flags, DiagPriority, TargetPortAddressTop, TargetPortAddressBottom,
      Num(f1), Num(f2), Num(f3), Num(0x80), Num(f4), Num(21548), Num(0));
  }

  /** The package's builder test. It expects a top bound of 21504 and a bottom bound of 44,
      which `setTargetPort(21548)` does not produce: the code stores 21548 and 0. */
  method TestBuilders() returns (decoded: Result<Payload<Key>>)
    ensures decoded == Ok(BuiltPacket())
  {
    var poll := new Poll(map[]);
    ghost var p0 := poll.payload;
    DefaultFlags();
    poll.SetArtPollReplyPolicy("ON_NODE_CONDITION_CHANGE");
    ghost var p1 := poll.payload;
    poll.SendMeDiagnostics(false);
    ghost var p2 := poll.payload;
    poll.SetDiagnosticsPolicy("UNICAST");
    ghost var p3 := poll.payload;
    poll.SetDiagPriority(DpHigh);
    PriorityCodes();
    ghost var p4 := poll.payload;
    poll.SetVlcTransmission(false);
    ghost var p5 := poll.payload;
    poll.SetTargetPort(21548, 0);
    BuilderChain(p0, p1, p2, p3, p4, p5, poll.payload);
    var udp := poll.Encode();
    BuiltRoundTrip();
    var buffer := BufferFrom(udp.value);
    decoded := poll.Decode(buffer);
  }
}
