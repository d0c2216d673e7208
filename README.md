# ArtNetLib, modelled in Dafny

ArtNetLib is a TypeScript library for controlling stage lighting over Art-Net 4, the
Artistic Licence protocol that carries DMX512 over UDP. This project models the current
generation of its four layers and proves properties of the model:

- **The binary codec** (`packages/protocol`). A packet is a payload of named values plus an
  ordered schema of number, string and array fields. `encode` writes the fields one after
  another into a zero-filled buffer. `decode` checks the buffer's size and reads them back.
  Modules `Schemas`, `Encoder`, `Protocol`, `Helpers`, `ByteOrder` and `OrderedMaps`.
- **The Art-Net packets** (`packages/artnet-packets`). Every packet starts with the `"Art-Net\0"`
  ID and a little-endian OpCode. The modelled packets are ArtDmx, ArtSync, ArtPoll,
  ArtPollReply, ArtAddress, ArtDiagData, ArtCommand and ArtIpProg. Each has its defaults, its
  `is` test, its `create` and its builder methods.
  Modules `ArtNetPackets`, `DmxPacket`, `SyncPacket`, `PollPacket`, `PollReplyPacket`,
  `AddressPacket`, `DiagDataPacket`, `CommandPacket` and `IpProgPacket`.
- **Devices and universes** (`packages/artnet-lib/core/device`, `universe`). A device owns a
  fixed-size buffer of channel levels. A universe lays its devices' buffers end to end as the
  DMX data of one ArtDmx frame, within 512 channels. Modules `Devices` and `Universes`.
- **Nodes, discovery and the entry point** (`packages/artnet-lib/core`). The node registry is
  keyed by MAC address and has a liveness watcher. Discovery runs the ArtPoll loop. The
  `ArtNet` object keeps universes by name and attaches them to node ports. The communicator
  computes the broadcast address. Modules `Nodes`, `NodeManagers`, `Discoveries`, `ArtNets`
  and `Communicators`.

The JavaScript semantics the code relies on are written out in their own modules:
- `JsNumbers`: the 32-bit `|`, `&`, `& ~`, `<<` and `>>` operators.
- `JsStrings`: `split`, `join`, `parseInt` and `Number`.
- `JsArrays`: `indexOf`, `findIndex` and `splice`, with the argument normalisation of ECMA-262.

Errors are values:
- `Result` and `Outcome` carry the library's `ArtNetLibError` codes, the Node.js
  `RangeError`s of `Buffer`, and the thrown `Error`s (module `Wrappers`).
- A JavaScript `null` or `undefined` result is an `Option`.

The source's own form is kept. Objects whose fields change are classes with `modifies`
frames, for example `Dmx`, `Generic`, `Universe`, `Node`, `NodeManager`, `Discovery`,
`Communicator` (the source's `NetworkCommunicator`) and `ArtNet` (the source's `ArtNetImpl`).
The loops of `encode`, `decode`, `setChannels`, `removeNodes`, `updateUniverseAddressInfo`,
`buildDmxData` and the action setters are `while` loops with invariants. The methods state
their results and new state through specification functions; `Node.SendFrames` and
`Node.SyncAll` state less, as "## Left out" says. Pure parts are functions with lemmas:
schema sums, header recognition, bit builders, the broadcast address and the ordered-map
operations.

Things outside the program are inputs or logs:
- Time is a `now` parameter.
- Emitted events are appended to a log.
- Datagrams sent go to an outbox sequence.
- The host's network interfaces are a list given as an argument.
- A timer that fires becomes a method called when it fires.

Where the code does something its authors evidently did not intend, the model keeps the
code as written and proves a lemma that exhibits the behaviour. A corrected member beside it
carries the intended property. The cases are listed under "## Findings". The classes expose
the as-written methods, and the rest of the model calls those. So `Discovery.Stop` runs the
as-written `NodeManager.Dispose`, which keeps the registered nodes. `ArtNet.RemoveNode` runs
the as-written `removeNodes` walk; while MAC addresses are unique, as `addOrUpdateNode` keeps
them, that walk removes exactly the node `getByMac` finds (`NodeManager.RemoveByMacExact`).

Where the repository's doc comments or tests disagree with its code, the model follows the code:
- `getByName`'s doc comment promises the first match, but the code returns the last.
- The poll builder test calls `setTargetPort(21548)` and expects target port bounds of
  21504 (top) and 44 (bottom), the high and low parts of 0x542C. The code stores 21548 as the
  top bound and 0 as the bottom. See `PollPacket.TestBuilders`.
- `configure` and `resetToPhysicalSwitch` fill `swIn` from the node's `swOut`, and this is
  modelled as written.

## Model

| member | source | states |
|---|---|---|
| Helpers.Clamp | packages/common/helpers/helpers.ts:1-3 | the result lies in [min, max] when min <= max; a value inside is kept, one below becomes min, one above becomes max, and an empty range (max < min) gives min |
| Helpers.ClampIdempotent | packages/common/helpers/helpers.ts:1-3 | clamping an already clamped value changes nothing |
| ByteOrder.TwoBytes | packages/protocol/lib/encoder/encoder.ts:86-87 | `readUInt16LE` reads low byte plus 256 times high byte, `readUInt16BE` the reverse |
| ByteOrder.LittleEndianRoundTrip | packages/protocol/lib/encoder/encoder.ts:17-31 | reading back the n-byte little-endian image of v gives v modulo 256^n (a typed-array store wraps) |
| ByteOrder.RoundTrip | packages/protocol/lib/encoder/encoder.ts:17-31 | a value that fits n bytes is read back unchanged in either byte order (`writeUIntNLE/BE` then `readUIntNLE/BE`) |
| ByteOrder.ToBytesModulo | packages/protocol/lib/encoder/encoder.ts:43-57 | the bytes written for an element depend only on the element modulo 256^n |
| ByteOrder.BigEndianSwapped | packages/protocol/lib/encoder/encoder.ts:46 | the big-endian image reversed is the little-endian image, which is what `swap16`/`swap32` rely on |
| OrderedMaps.PutSpec | packages/protocol/lib/schema/schema.ts:9-11 | `Map.set` keeps keys unique, maps the key to the new value, leaves every other key alone, and keeps a present key in place or appends a new one last |
| OrderedMaps.RemoveSpec | packages/artnet-lib/core/node/node.ts:70 | `Map.delete` keeps keys unique, drops exactly the key and leaves every other key's value alone |
| OrderedMaps.RemoveFilters | packages/artnet-lib/core/node/node.ts:70 | without repeated keys, what `delete` leaves is the map with that key's entry filtered out, the other entries in their order |
| OrderedMaps.FromListLastWins | packages/protocol/lib/schema/schema.ts:5-7 | in `new Map(list)` a repeated key holds the last value the list gives it |
| OrderedMaps.FromListUnique | packages/protocol/lib/schema/schema.ts:5-7 | a list without repeated keys is its own Map, in the same order |
| Schemas.CalcBytesIsPackedSize | packages/protocol/lib/schema/schema.ts:17-19 | `calcBytesInPacket` (sum of `length`) never exceeds the bytes the encoder's offsets cover, and equals it exactly when every non-empty array has one-byte elements |
| Schemas.SizesAppend | packages/protocol/lib/schema/schema.ts:17-19 | both byte counts of a schema are additive over concatenation of records |
| Schemas.OffsetOf | packages/protocol/lib/encoder/encoder.ts:131-134 | a key has an offset exactly when the schema contains it |
| Schemas.OffsetOfPrefix | packages/protocol/lib/encoder/encoder.ts:131-134 | the offset of a key is the packed size of the records before its first occurrence (the running `getOffsetOf` sum) |
| Schemas.Schema.constructor | packages/protocol/lib/schema/schema.ts:5-7 | the entries are `new Map(schema)` built from the given records, keys unique |
| Schemas.Schema.SetValue | packages/protocol/lib/schema/schema.ts:9-11 | the record of the key becomes the value, other keys keep their records, and the entries are the ordered-map update of the old ones |
| Protocol.Packet.constructor | packages/protocol/lib/protocol.ts:9-15 | the packet holds a copy of the payload and a fresh schema built from the records |
| Protocol.Packet.Encode | packages/protocol/lib/protocol.ts:17-19 | the result is `encode` of the packet's payload with its own schema |
| Protocol.Packet.Decode | packages/protocol/lib/protocol.ts:21-23 | the result and the caller's buffer afterwards are `decode` of the buffer with the packet's schema; the payload is unchanged |
| Protocol.TestCalcBytes | packages/protocol/lib/protocol.test.ts:25-39 | `calcBytesInPacket` of the test schema is 40 |
| Protocol.TestPackedSize | packages/protocol/lib/protocol.test.ts:25-39 | the fields of the test schema occupy 72 bytes |
| Protocol.TestAligned | packages/protocol/lib/protocol.test.ts:25-39 | every wide array of the test schema starts at a multiple of its element size (why the fillers are there) |
| Protocol.TestEncodeFails | packages/protocol/lib/protocol.test.ts:60-63 | as written, `encode` of the test payload throws a RangeError: the 40-byte buffer is too short for the first four-byte array |
| Protocol.TestRoundTripPacked | packages/protocol/lib/protocol.test.ts:60-63 | with the buffer sized to the packed size, encode then decode of the test payload gives back the payload |
| Encoder.GetOffsetOf | packages/protocol/lib/encoder/encoder.ts:131-134 | the next offset is the current one plus the field's span (`length`, or `length * size` for arrays) |
| Encoder.WriteField | packages/protocol/lib/encoder/encoder.ts:11-78 | one field write keeps the buffer length, and its only failure is the RangeError of Node's writers |
| Encoder.ReadField | packages/protocol/lib/encoder/encoder.ts:80-129 | one field read keeps the buffer length and returns a value of the kind the field's type and width give (bigint for 8-byte numbers, undefined for a width without a case) |
| Encoder.EncodeKeepsPrefix | packages/protocol/lib/encoder/encoder.ts:136-159 | `encode` never rewrites bytes before the running offset |
| Encoder.EncodeMissing | packages/protocol/lib/encoder/encoder.ts:142 | a schema key missing from the payload makes `encode` fail with the missing-key error once the fields before it were written |
| Encoder.ShortBufferFails | packages/protocol/lib/encoder/encoder.ts:59-78 | with a buffer shorter than the fields' span, an array running past the end makes `encode` throw a RangeError |
| Encoder.WideNumberReadsZero | packages/protocol/lib/encoder/encoder.ts:17-31 | an 8-byte number field is never written, so any number encodes as zeros, and it decodes as the bigint 0 |
| Encoder.DecodeFromKinds | packages/protocol/lib/encoder/encoder.ts:161-184 | every key `decode` returns is a schema key, holding a value of its field's kind |
| Encoder.ProjectSpec | packages/protocol/lib/encoder/encoder.ts:169-183 | the decoded payload has exactly the schema keys, each with the payload's value |
| Encoder.RoundTripPacked | packages/protocol/lib/encoder/encoder.ts:136-184 | with the buffer sized to the packed size, every recoverable, aligned payload encodes to its image and decodes back to every schema field's value; big-endian wide arrays are left swapped in the caller's buffer |
| Encoder.RoundTrip | packages/protocol/lib/encoder/encoder.ts:136-184 | the as-written `encode` and `decode` are inverse on every schema whose arrays have one-byte elements |
| Encoder.RoundTripBytes | packages/protocol/lib/encoder/encoder.ts:136-184 | for a schema of byte arrays, a payload of exactly the schema keys with recoverable values encodes to its image and decodes to itself, and the buffer is left as written |
| Encoder.WriteFieldInto | packages/protocol/lib/encoder/encoder.ts:11-78 | a field write into the array succeeds exactly when the reference write does, and leaves the reference result, or the old bytes on a RangeError |
| Encoder.Encode | packages/protocol/lib/encoder/encoder.ts:136-159 | the loop over the schema returns the reference encoding `Encoded` of the payload |
| Encoder.SwapInPlace | packages/protocol/lib/encoder/encoder.ts:107-117 | `swap16`/`swap32` reverse every group of the region in place and leave the rest of the buffer alone |
| Encoder.ReadFieldFrom | packages/protocol/lib/encoder/encoder.ts:80-129 | reading a field from the array gives the reference value and the reference buffer afterwards |
| Encoder.ReadArrayFrom | packages/protocol/lib/encoder/encoder.ts:107-129 | reading an array field, swapping wide big-endian elements in the shared buffer first, gives the reference value and buffer |
| Encoder.Decode | packages/protocol/lib/encoder/encoder.ts:161-184 | the size check and the loop return the reference decoding `Decoded` and leave the buffer as it says |
| ArtNetPackets.WithHeader | packages/artnet-packets/lib/common/art-net-packet.ts:11-16 | the packet payload holds the packet's own keys plus `ID` and `opCode`; a field the packet gives wins over the header default, else `ID` is "Art-Net" and `opCode` the class's OpCode |
| ArtNetPackets.GetHeaderLength | packages/artnet-packets/lib/common/art-net-packet.ts:30-38 | succeeds exactly when the header schema has a string `ID` record and an `opCode` record of non-zero size, and then is the ID's length plus the OpCode's size; otherwise it throws |
| ArtNetPackets.HeaderLength | packages/artnet-packets/lib/common/art-net-packet.ts:6-9 | the header schema gives a header length of 10, which is also its packed size, so the packet fields start at byte 10 |
| ArtNetPackets.ReadPacketID | packages/artnet-packets/lib/common/art-net-packet.ts:40-42 | the first seven bytes of the buffer, or the whole buffer when it is shorter (`subarray` clamps) |
| ArtNetPackets.ReadPacketOpCode | packages/artnet-packets/lib/common/art-net-packet.ts:44-46 | throws exactly when the buffer is shorter than 10 bytes; otherwise the little-endian 16-bit word at byte 8 |
| ArtNetPackets.IsArtNetPacket | packages/artnet-packets/lib/common/art-net-packet.ts:48-51 | true exactly when a buffer is given, it has at least seven bytes and they read "Art-Net" |
| ArtNetPackets.IsOp | packages/artnet-packets/lib/sync/sync.ts:27-29 | a packet class's `is`: it throws exactly when the buffer reads "Art-Net" but is shorter than 10 bytes, and is true exactly when it reads "Art-Net" and carries the class's OpCode little-endian at byte 8 |
| ArtNetPackets.EncodedHeader | packages/artnet-packets/lib/common/art-net-packet.ts:18-23 | the first ten bytes of an encoded packet are the image of its `ID` and `opCode` fields |
| ArtNetPackets.HeaderImage | packages/artnet-packets/lib/common/art-net-packet.ts:6-16 | the header of a packet is "Art-Net", a NUL byte, then the OpCode in two little-endian bytes |
| ArtNetPackets.EncodedIsOp | packages/artnet-packets/lib/common/art-net-packet.ts:26-51 | an encoded packet is recognised by the `is` of its own OpCode and by no other: `is` gives true for its OpCode and false for every other one |
| ArtNetPackets.WithHeaderMerge | packages/artnet-packets/lib/common/art-net-packet.ts:11-16 | spreading overrides into a class's defaults and then adding the header is the same as adding the header to the defaults and spreading the overrides last |
| ArtNetPackets.LayoutKeys | packages/artnet-packets/lib/common/art-net-packet.ts:18-21 | the keys of the joined schema are `ID`, `opCode` and the packet schema's keys |
| ArtNetPackets.PacketRoundTrip | packages/artnet-packets/lib/common/art-net-packet.ts:11-24 | a packet built from a class's defaults and fitting overrides encodes, its encoding is the concatenated field images, and decoding it gives back exactly the payload and leaves the buffer unchanged |
| ArtNetPackets.SetAfterMerge | packages/artnet-packets/lib/common/art-net-packet.ts:11-16 | changing a packet field after construction is the same as giving that value as an override |
| ArtNetPackets.FullOverride | packages/artnet-packets/lib/sync/sync.ts:16-22 | overrides that name every field of the schema replace all the constructor's defaults |
| ArtNetPackets.CreateFrom | packages/artnet-packets/lib/sync/sync.ts:31-37 | a packet class's `create`: null for a datagram of another kind; a packet it builds comes from a datagram of the class's OpCode that decodes |
| ArtNetPackets.WithHeaderIdempotent | packages/artnet-packets/lib/common/art-net-packet.ts:11-16 | building a packet from a payload that already holds the header and every default gives back that payload |
| ArtNetPackets.CreateOfEncoded | packages/artnet-packets/lib/sync/sync.ts:31-37 | `create` of an encoded packet of a fixed-schema class rebuilds exactly that packet, so it re-encodes to the same datagram |
| SyncPacket.Sizes | packages/artnet-packets/lib/sync/sync.ts:10-14 | the ArtSync schema packs into 4 bytes and, with the header, into 14 |
| SyncPacket.RoundTrip | packages/artnet-packets/lib/sync/sync.ts:16-25 | every ArtSync built from fitting overrides encodes and decodes back to its whole payload, header included |
| SyncPacket.CreateOfEncoded | packages/artnet-packets/lib/sync/sync.ts:31-37 | `create` of an encoded ArtSync rebuilds exactly that packet |
| SyncPacket.TestMerge | packages/artnet-packets/lib/sync/sync.test.ts:7-11 | the test payload names every field, so the constructor keeps none of its defaults |
| SyncPacket.TestRoundTrip | packages/artnet-packets/lib/sync/sync.test.ts:13-21 | decoding the encoded test packet gives the header fields plus the test payload |
| SyncPacket.TestCreate | packages/artnet-packets/lib/sync/sync.test.ts:23-27 | `create` of the encoded test packet rebuilds it, so it re-encodes to the same datagram |
| DmxPacket.DefaultValues | packages/artnet-packets/lib/dmx/dmx.ts:24-34 | the defaults for n channels are protocol version 14, net, subnet, sequence and physical port 0, length n and n zero levels |
| DmxPacket.PayloadFields | packages/artnet-packets/lib/dmx/dmx.ts:23-38 | the payload `new Dmx` holds has every field with a value of its type, and its `length` is the given length or 512 |
| DmxPacket.PayloadKeeps | packages/artnet-packets/lib/dmx/dmx.ts:25-34 | every field passed to the constructor is kept as given |
| DmxPacket.PayloadZeros | packages/artnet-packets/lib/dmx/dmx.ts:32 | without `dmxData` the packet holds `length` zero levels |
| DmxPacket.PayloadHeader | packages/artnet-packets/lib/dmx/dmx.ts:38 | the header is "Art-Net" and the ArtDmx OpCode 0x5000 unless the payload gives them |
| DmxPacket.GetDmxDataLen | packages/artnet-packets/lib/dmx/dmx.ts:45-53 | null for a datagram that is not an ArtDmx; for an ArtDmx the big-endian word at bytes 16 and 17; a short datagram throws, whether its OpCode or its length cannot be read |
| DmxPacket.GetDmxDataLenShared | packages/artnet-packets/lib/dmx/dmx.ts:36 | the channel count the shared static schema last received never changes what `getDmxDataLen` reads |
| DmxPacket.ClampToDmxRange | packages/artnet-packets/lib/dmx/dmx.ts:84-88 | the channel lands in [0, 512] and the value in [0, 255]; values inside are kept and values outside go to the nearer bound |
| DmxPacket.Assign | packages/artnet-packets/lib/dmx/dmx.ts:99 | a JavaScript array store: the element is set, others are kept, and past the end the array grows to index + 1, the skipped gap holding 0 (the byte `encode` writes for a hole) |
| DmxPacket.AssignHoles | packages/artnet-packets/lib/dmx/dmx.ts:99 | after a store the stored index is no hole, every index skipped past the old end is a hole, other indices keep their status, and every hole is an index of the new array holding 0 |
| DmxPacket.ChannelWrite | packages/artnet-packets/lib/dmx/dmx.ts:96-101 | `setChannel` throws exactly when the channel as given exceeds `length`; otherwise the clamped value is stored at the clamped channel and no other level changes |
| DmxPacket.ClampChannels | packages/artnet-packets/lib/dmx/dmx.ts:103-108 | `setChannels` maps every element to the channel range [0, 512] |
| DmxPacket.SequenceStalls | packages/artnet-packets/lib/dmx/dmx.ts:73-77 | as written, `incSequence` leaves every sequence below 255 where it was |
| DmxPacket.NextSequenceAdvances | packages/artnet-packets/lib/dmx/dmx.ts:73-77 | the intended step moves every sequence in 0..255 to its successor modulo 256 |
| DmxPacket.Dmx.constructor | packages/artnet-packets/lib/dmx/dmx.ts:23-39 | the packet holds the defaults for its length with the given payload spread over them and the header in front, and its schema's `dmxData` record has `length` elements |
| DmxPacket.Dmx.Encode | packages/artnet-packets/lib/dmx/dmx.ts:38 | the packet encodes with its own schema |
| DmxPacket.Dmx.Decode | packages/artnet-packets/lib/dmx/dmx.ts:38 | decoding with the packet's schema, which leaves the packet's payload alone |
| DmxPacket.Dmx.SetNet | packages/artnet-packets/lib/dmx/dmx.ts:55-62 | only `net` changes, and `getNet` reads it back |
| DmxPacket.Dmx.SetSubnet | packages/artnet-packets/lib/dmx/dmx.ts:64-71 | only `subNet` changes, and `getSubnet` reads it back |
| DmxPacket.Dmx.SetPhysicalPort | packages/artnet-packets/lib/dmx/dmx.ts:79-82 | only `physical` changes |
| DmxPacket.Dmx.IncSequence | packages/artnet-packets/lib/dmx/dmx.ts:73-77 | the sequence becomes 0 from 255 or more and otherwise stays; the stored value is returned and no other field changes |
| DmxPacket.Dmx.CheckChannelInRange | packages/artnet-packets/lib/dmx/dmx.ts:90-94 | passes exactly when the channel is at most `length`, else throws |
| DmxPacket.Dmx.SetChannel | packages/artnet-packets/lib/dmx/dmx.ts:96-101 | on a throw nothing changes; otherwise `dmxData` becomes the channel write, the holes become those the store leaves, and nothing else changes |
| DmxPacket.Dmx.SetChannels | packages/artnet-packets/lib/dmx/dmx.ts:103-109 | it passes exactly when every clamped element is at most `length`, and then `dmxData` becomes the clamped list, which has no holes; a throw leaves the packet as it was |
| DmxPacket.Dmx.GetChannelValue | packages/artnet-packets/lib/dmx/dmx.ts:111-114 | throws exactly when the channel exceeds `length`; otherwise it gives the level at that index, or `undefined` outside the array and at a hole that `setChannel` opened |
| DmxPacket.GapReadsUndefined | packages/artnet-packets/lib/dmx/dmx.ts:96-114 | after `setChannels([1, 2, 3])` and `setChannel(10, 7)`, channel 5 reads `undefined`, channel 10 reads 7 and channel 2 reads 3 |
| DmxPacket.Create | packages/artnet-packets/lib/dmx/dmx.ts:116-127 | null for a datagram of another kind and for a data length of 0 |
| DmxPacket.RoundTrip | packages/artnet-packets/lib/dmx/dmx.ts:12-38 | every ArtDmx built from fitting overrides encodes to 18 + length bytes with the length big-endian at bytes 16 and 17, and decodes back to its payload |
| DmxPacket.EncodedDataLen | packages/artnet-packets/lib/dmx/dmx.ts:45-53 | `getDmxDataLen` of an encoded ArtDmx is its length |
| DmxPacket.Rebuilt | packages/artnet-packets/lib/dmx/dmx.ts:23-39 | a packet's payload given back to `new Dmx` builds the same packet |
| DmxPacket.CreateOfEncoded | packages/artnet-packets/lib/dmx/dmx.ts:116-127 | `create` of an encoded ArtDmx with at least one channel rebuilds exactly that packet |
| DmxPacket.CreateOfEmpty | packages/artnet-packets/lib/dmx/dmx.ts:119-121 | an encoded ArtDmx with no channels is never rebuilt: `create` returns null |
| DmxPacket.ChannelAtLengthBreaksEncode | packages/artnet-packets/lib/dmx/dmx.ts:90-101 | `setChannel(length, v)` on a full packet passes the check, grows `dmxData` past `length`, and the next `encode` throws |
| DmxPacket.DefaultChannel512 | packages/artnet-packets/lib/dmx/dmx.ts:90-101 | on the default packet `setChannel(512, 255)` is accepted and the packet no longer encodes |
| DmxPacket.ChannelWriteInRange | packages/artnet-packets/lib/dmx/dmx.ts:90-101 | the intended check throws exactly when the clamped channel is not an index below `length` |
| DmxPacket.InRangeKeepsLength | packages/artnet-packets/lib/dmx/dmx.ts:90-101 | with the intended check `dmxData` keeps its `length` elements and the channel reads back the clamped value |
| DmxPacket.TestSnapshot | packages/artnet-packets/lib/dmx/dmx.test.ts:8-28 | the test packet encodes to exactly the 34-byte frame of the snapshot, for every level |
| DmxPacket.TestPacketFacts | packages/artnet-packets/lib/dmx/dmx.test.ts:30-61 | the test packet encodes, decodes to itself, its data length reads 16, and it is a fixed point of `new Dmx` |
| DmxPacket.TestEncodeDecode | packages/artnet-packets/lib/dmx/dmx.test.ts:30-61 | the decoded datagram is the header plus the test payload, its data length is 16, and the packet rebuilt from it has channel 5 at the test level, net 6 and subnet 1 |
| DmxPacket.TestCreate | packages/artnet-packets/lib/dmx/dmx.test.ts:63-78 | `create` of the encoded test packet rebuilds it |
| IpProgPacket.Sizes | packages/artnet-packets/lib/ip-prog/ip-prog.ts:7-31 | the ArtIpProg schema packs into 24 bytes, so the datagram is 34 |
| IpProgPacket.Records | packages/artnet-packets/lib/ip-prog/ip-prog.ts:7-31 | the schema's 23 keys are distinct and none is a header key |
| IpProgPacket.DefaultsRecoverable | packages/artnet-packets/lib/ip-prog/ip-prog.ts:33-59 | every constructor default names a schema field and survives an encode-decode round trip |
| IpProgPacket.RoundTrip | packages/artnet-packets/lib/ip-prog/ip-prog.ts:33-62 | every ArtIpProg built from fitting overrides encodes and decodes back to its whole payload |
| IpProgPacket.CreateOfEncoded | packages/artnet-packets/lib/ip-prog/ip-prog.ts:68-74 | `create` of an encoded ArtIpProg rebuilds exactly that packet |
| IpProgPacket.TestMerge | packages/artnet-packets/lib/ip-prog/ip-prog.test.ts:7-31 | the test payload names every field, so the constructor keeps none of its defaults |
| IpProgPacket.TestRoundTrip | packages/artnet-packets/lib/ip-prog/ip-prog.test.ts:33-43 | decoding the encoded test packet gives the header fields plus the test payload |
| PollReplyPacket.DefaultTexts | packages/artnet-packets/lib/poll-reply/poll-reply.ts:54-56 | the default short name, long name and node report are ASCII texts of 13, 17 and 12 bytes without a NUL, so they fit their fields |
| PollReplyPacket.Sizes | packages/artnet-packets/lib/poll-reply/poll-reply.ts:8-40 | the ArtPollReply schema packs into 226 bytes, so the datagram is 236 |
| PollReplyPacket.Records | packages/artnet-packets/lib/poll-reply/poll-reply.ts:8-40 | the schema's 31 keys are distinct and none is a header key |
| PollReplyPacket.DefaultsRecoverable | packages/artnet-packets/lib/poll-reply/poll-reply.ts:42-76 | every constructor default names a schema field and survives an encode-decode round trip |
| PollReplyPacket.RoundTrip | packages/artnet-packets/lib/poll-reply/poll-reply.ts:42-79 | every ArtPollReply built from fitting overrides encodes and decodes back to its whole payload |
| PollReplyPacket.CreateOfEncoded | packages/artnet-packets/lib/poll-reply/poll-reply.ts:85-91 | `create` of an encoded ArtPollReply rebuilds exactly that packet |
| PollReplyPacket.TestMerge | packages/artnet-packets/lib/poll-reply/poll-reply.test.ts:7-39 | the test payload names every field, so the constructor keeps none of its defaults |
| PollReplyPacket.TestRoundTrip | packages/artnet-packets/lib/poll-reply/poll-reply.test.ts:42-51 | decoding the encoded test packet gives the header fields plus the test payload |
| PollReplyPacket.TestCreate | packages/artnet-packets/lib/poll-reply/poll-reply.test.ts:52-57 | `create` of the encoded test packet rebuilds it, so it re-encodes to the same datagram |
| PollReplyPacket.TestPollIsNotPollReply | packages/artnet-packets/lib/poll-reply/poll-reply.test.ts:59-63 | an encoded default ArtPoll is rejected by the ArtPollReply `is`, and `create` gives null for it |
| ArtNetPackets.EncodedIsNotOther | packages/artnet-packets/lib/poll-reply/poll-reply.ts:81-91 | the encoding of a packet of one OpCode is rejected by the `is` and the `create` of every other OpCode |
| PollPacket.EncodedIsNoOther | packages/artnet-packets/lib/poll/poll.ts:79-89 | an encoded ArtPoll is rejected by the `is` and the `create` of every other OpCode |
| PollPacket.MaskBits | packages/artnet-packets/lib/poll/poll.ts:44-77 | each behaviour mask the builders use is the single flag bit Art-Net 4 gives it: bits 1 to 5 |
| PollPacket.PriorityCode | packages/artnet-packets/lib/poll/poll.ts:33-36 | every diagnostics priority code is a non-zero byte |
| PollPacket.PriorityCodes | packages/artnet-packets/lib/poll/poll.test.ts:12 | DpLow, DpHigh and DpCritical are 0x10, 0x80 and 0xe0 |
| PollPacket.SetFlagValue | packages/artnet-packets/lib/poll/poll.ts:44-77 | for flags below 2^31, `\|= bit` adds the bit's weight when the bit is clear, and `&= ~bit` subtracts it when it is set |
| PollPacket.FlagBits | packages/artnet-packets/lib/poll/poll.ts:44-77 | a builder sets or clears exactly its own bit, keeps every other bit, and keeps a byte a byte |
| PollPacket.SetFlagIdempotent | packages/artnet-packets/lib/poll/poll.ts:44-77 | calling a flag builder twice with the same argument is the same as calling it once |
| PollPacket.ForcedBits | packages/artnet-packets/lib/poll/poll.ts:30 | the constructor's closing builder chain sets bits 1 and 2, clears bit 3 and keeps every other bit |
| PollPacket.ForcedIdempotent | packages/artnet-packets/lib/poll/poll.ts:30 | running the constructor's builder chain again changes nothing |
| PollPacket.ForceChain | packages/artnet-packets/lib/poll/poll.ts:30 | the three builder calls, one after another, are the forced flags of the merged payload |
| PollPacket.Create | packages/artnet-packets/lib/poll/poll.ts:83-89 | null for a datagram of another kind; a packet it builds comes from an ArtPoll datagram |
| PollPacket.Poll.constructor | packages/artnet-packets/lib/poll/poll.ts:18-31 | the packet holds the defaults with the payload spread over them, the header in front, and the flags forced by the builder chain |
| PollPacket.Poll.Encode | packages/artnet-packets/lib/poll/poll.ts:28 | the packet encodes with the header and the ArtPoll schema |
| PollPacket.Poll.Decode | packages/artnet-packets/lib/poll/poll.ts:28 | decoding with the packet's schema, which leaves the packet's payload alone |
| PollPacket.Poll.SetDiagPriority | packages/artnet-packets/lib/poll/poll.ts:33-36 | only `diagPriority` changes, to the code of the named priority |
| PollPacket.Poll.SetTargetPort | packages/artnet-packets/lib/poll/poll.ts:38-42 | only the two target bounds change, to the values given |
| PollPacket.Poll.SetTargetedMode | packages/artnet-packets/lib/poll/poll.ts:44-49 | only `flags` changes: the targeted-mode bit is set when enabled and cleared otherwise |
| PollPacket.Poll.SetVlcTransmission | packages/artnet-packets/lib/poll/poll.ts:51-56 | only `flags` changes: the VLC bit is cleared when transmission is enabled and set when it is disabled |
| PollPacket.Poll.SetDiagnosticsPolicy | packages/artnet-packets/lib/poll/poll.ts:58-63 | only `flags` changes: the policy bit is set for 'UNICAST' and cleared for anything else |
| PollPacket.Poll.SendMeDiagnostics | packages/artnet-packets/lib/poll/poll.ts:65-70 | only `flags` changes: the diagnostics bit is set or cleared as asked |
| PollPacket.Poll.SetArtPollReplyPolicy | packages/artnet-packets/lib/poll/poll.ts:72-77 | only `flags` changes: the reply bit is set for 'ON_NODE_CONDITION_CHANGE' and cleared for anything else |
| PollPacket.Records | packages/artnet-packets/lib/poll/poll.ts:10-16 | the schema's keys are distinct and none is a header key |
| PollPacket.DefaultsRecoverable | packages/artnet-packets/lib/poll/poll.ts:18-26 | every constructor default names a schema field and survives an encode-decode round trip |
| PollPacket.MergedFlags | packages/artnet-packets/lib/poll/poll.ts:18-26 | merged fitting overrides leave `flags` a byte |
| PollPacket.RoundTrip | packages/artnet-packets/lib/poll/poll.ts:18-31 | every ArtPoll built from fitting overrides encodes and decodes back to its whole payload |
| PollPacket.ForceFlagsIdempotent | packages/artnet-packets/lib/poll/poll.ts:30 | a Poll's payload already carries its forced flags |
| PollPacket.CreateOfEncoded | packages/artnet-packets/lib/poll/poll.ts:83-89 | `create` of an encoded ArtPoll rebuilds exactly that packet, even though the constructor forces the flags again |
| PollPacket.TestForced | packages/artnet-packets/lib/poll/poll.test.ts:15 | the test's flags 0b110 already carry the forced bits |
| PollPacket.TestMerge | packages/artnet-packets/lib/poll/poll.test.ts:10-18 | the test payload is the whole packet after the header |
| PollPacket.TestRoundTrip | packages/artnet-packets/lib/poll/poll.test.ts:9-27 | decoding the encoded test packet gives the header fields plus the test payload |
| PollPacket.TestCreate | packages/artnet-packets/lib/poll/poll.test.ts:29-42 | `create` of the encoded test packet rebuilds it |
| PollPacket.BuilderFlags | packages/artnet-packets/lib/poll/poll.test.ts:55-59 | the builder calls of the test turn the default flags into 0b00011010 |
| PollPacket.BuiltPacketValues | packages/artnet-packets/lib/poll/poll.test.ts:44-61 | after the builder calls the packet holds the header, version 14, flags 0x1a, priority 0x80, top bound 21548 and bottom bound 0 |
| PollPacket.BuiltRoundTrip | packages/artnet-packets/lib/poll/poll.test.ts:62 | the built packet decodes back to itself |
| PollPacket.DefaultFlags | packages/artnet-packets/lib/poll/poll.ts:18-31 | a default Poll's flags are the forced bits alone |
| PollPacket.TestBuilders | packages/artnet-packets/lib/poll/poll.test.ts:44-68 | the builder test's packet decodes to the built packet, with 21548 and 0 as target bounds where the test expects 21504 and 44 |
| AddressPacket.ProgrammedByte | packages/artnet-packets/lib/address/address.ts:39-45 | on a byte, `x \| 0x80` adds 0x80 when bit 7 is clear and keeps it otherwise, and the result has bit 7 set |
| AddressPacket.PhysicalLow | packages/artnet-packets/lib/address/address.ts:47-53 | `x & 0x7f` keeps the low seven bits of any number, negative ones included |
| AddressPacket.ProgrammedIdempotent | packages/artnet-packets/lib/address/address.ts:39-45 | setting bit 7 twice is setting it once |
| AddressPacket.PhysicalIdempotent | packages/artnet-packets/lib/address/address.ts:47-53 | clearing bit 7 twice is clearing it once |
| AddressPacket.PhysicalOfProgrammed | packages/artnet-packets/lib/address/address.ts:39-53 | a value below 0x80 comes back from setting bit 7 and clearing it again |
| AddressPacket.ProgrammedOfPhysical | packages/artnet-packets/lib/address/address.ts:39-53 | a byte with bit 7 set comes back from clearing bit 7 and setting it again |
| AddressPacket.ProgramAllBytes | packages/artnet-packets/lib/address/address.ts:42-43 | mapping `x \| 0x80` over port bytes gives bytes with bit 7 set |
| AddressPacket.PhysicalAllBelow | packages/artnet-packets/lib/address/address.ts:50-51 | mapping `x & 0x7f` over port values gives values below 0x80 |
| AddressPacket.ProgramAllIdempotent | packages/artnet-packets/lib/address/address.ts:42-43 | the programming map is idempotent |
| AddressPacket.PhysicalAllIdempotent | packages/artnet-packets/lib/address/address.ts:50-51 | the physical map is idempotent |
| AddressPacket.PhysicalOfProgramAll | packages/artnet-packets/lib/address/address.ts:39-53 | port values with bit 7 clear come back from the programming map followed by the physical map |
| AddressPacket.ProgramOfPhysicalAll | packages/artnet-packets/lib/address/address.ts:39-53 | port bytes with bit 7 set come back from the physical map followed by the programming map |
| AddressPacket.Applied | packages/artnet-packets/lib/address/address.ts:39-45 | `applyPortsConfig` keeps the port fields arrays |
| AddressPacket.Reset | packages/artnet-packets/lib/address/address.ts:47-53 | `resetToPhysicalPortsConfig` keeps the port fields arrays |
| AddressPacket.OthersKept | packages/artnet-packets/lib/address/address.ts:39-53 | neither transform adds, drops or changes any field but the two switches and the two port arrays, and the port arrays keep their lengths |
| AddressPacket.AppliedIdempotent | packages/artnet-packets/lib/address/address.ts:39-45 | applying the port configuration twice is applying it once |
| AddressPacket.ResetIdempotent | packages/artnet-packets/lib/address/address.ts:47-53 | resetting to the physical switches twice is resetting once |
| AddressPacket.ResetOfApplied | packages/artnet-packets/lib/address/address.ts:39-53 | resetting after applying restores a payload whose port values had bit 7 clear |
| AddressPacket.AppliedOfReset | packages/artnet-packets/lib/address/address.ts:39-53 | applying after resetting restores a payload whose port values had bit 7 set |
| AddressPacket.Address.constructor | packages/artnet-packets/lib/address/address.ts:21-37 | the packet holds the defaults with the payload spread over them and the header in front |
| AddressPacket.Address.Encode | packages/artnet-packets/lib/address/address.ts:36 | the packet encodes with the header and the ArtAddress schema |
| AddressPacket.Address.Decode | packages/artnet-packets/lib/address/address.ts:36 | decoding with the packet's schema, which leaves the packet's payload alone |
| AddressPacket.Address.ApplyPortsConfig | packages/artnet-packets/lib/address/address.ts:39-45 | the payload becomes its applied form |
| AddressPacket.Address.ResetToPhysicalPortsConfig | packages/artnet-packets/lib/address/address.ts:47-53 | the payload becomes its reset form |
| AddressPacket.Sizes | packages/artnet-packets/lib/address/address.ts:8-19 | the ArtAddress schema packs into 97 bytes, so the datagram is 107 |
| AddressPacket.Records | packages/artnet-packets/lib/address/address.ts:8-19 | the schema's keys are distinct and none is a header key |
| AddressPacket.Texts | packages/artnet-packets/lib/address/address.ts:24-25 | the default and test names are ASCII texts without a NUL that fit their fields |
| AddressPacket.DefaultsRecoverable | packages/artnet-packets/lib/address/address.ts:21-34 | every constructor default names a schema field and survives an encode-decode round trip |
| AddressPacket.RoundTrip | packages/artnet-packets/lib/address/address.ts:21-37 | every ArtAddress built from fitting overrides encodes and decodes back to its whole payload |
| AddressPacket.CreateOfEncoded | packages/artnet-packets/lib/address/address.ts:59-66 | `create` of an encoded ArtAddress rebuilds exactly that packet |
| AddressPacket.PortValues | packages/artnet-packets/lib/address/address.ts:21-34 | a packet built from fitting overrides has a byte in each switch and four bytes in each port array |
| AddressPacket.AppliedRoundTrip | packages/artnet-packets/lib/address/address.ts:39-45 | after `applyPortsConfig` the packet still encodes and decodes back to itself |
| AddressPacket.ResetRoundTrip | packages/artnet-packets/lib/address/address.ts:47-53 | after `resetToPhysicalPortsConfig` the packet still encodes and decodes back to itself |
| AddressPacket.TestMerge | packages/artnet-packets/lib/address/address.test.ts:7-18 | the test payload names every field, so the constructor keeps none of its defaults |
| AddressPacket.TestRoundTrip | packages/artnet-packets/lib/address/address.test.ts:20-28 | decoding the encoded test packet gives the header fields plus the test payload |
| AddressPacket.TestCreate | packages/artnet-packets/lib/address/address.test.ts:30-34 | `create` of the encoded test packet rebuilds it |
| AddressPacket.ProgramExample | packages/artnet-packets/lib/address/address.ts:39-53 | 0x05 becomes 0x85 when programmed and 0x05 again when reset |
| DiagDataPacket.DefaultTextFacts | packages/artnet-packets/lib/diag-data/diag-data.ts:26 | the default text is 16 ASCII bytes without a NUL |
| DiagDataPacket.DefaultValues | packages/artnet-packets/lib/diag-data/diag-data.ts:22-31 | the defaults are protocol version 14, priority 0x10, logical port 0, fillers 0, length 16 and the default text, and no header field |
| DiagDataPacket.PayloadFields | packages/artnet-packets/lib/diag-data/diag-data.ts:19-34 | the packet has every field, its `length` is the given length or 16, and every field the payload gives is kept |
| DiagDataPacket.PayloadHeader | packages/artnet-packets/lib/diag-data/diag-data.ts:34 | the header is "Art-Net" and the ArtDiagData OpCode 0x2300 unless the payload gives them |
| DiagDataPacket.GetDiagDataLength | packages/artnet-packets/lib/diag-data/diag-data.ts:41-50 | null for a datagram that is not an ArtDiagData; for one, the big-endian word at bytes 16 and 17; a short datagram throws |
| DiagDataPacket.GetDiagDataLengthShared | packages/artnet-packets/lib/diag-data/diag-data.ts:33 | the width the shared static schema last received never changes what `getDiagDataLength` reads |
| DiagDataPacket.DiagData.constructor | packages/artnet-packets/lib/diag-data/diag-data.ts:19-35 | the packet holds the defaults with the payload spread over them and the header in front, and its `data` record is `length` characters wide |
| DiagDataPacket.DiagData.Encode | packages/artnet-packets/lib/diag-data/diag-data.ts:34 | the packet encodes with its own schema |
| DiagDataPacket.DiagData.Decode | packages/artnet-packets/lib/diag-data/diag-data.ts:34 | decoding with the packet's schema, which leaves the packet's payload alone |
| DiagDataPacket.Create | packages/artnet-packets/lib/diag-data/diag-data.ts:52-62 | null for a datagram of another kind and for a data length of 0; a packet it builds comes from an ArtDiagData of at least 18 bytes |
| DiagDataPacket.DataHidden | packages/artnet-packets/lib/diag-data/diag-data.ts:26-30 | a payload that names `data` hides the default text entirely |
| DiagDataPacket.RoundTrip | packages/artnet-packets/lib/diag-data/diag-data.ts:19-35 | every ArtDiagData built from fitting overrides encodes and decodes back to its payload, with its length big-endian at bytes 16 and 17 |
| DiagDataPacket.EncodedDataLength | packages/artnet-packets/lib/diag-data/diag-data.ts:41-50 | `getDiagDataLength` of an encoded ArtDiagData is its length |
| DiagDataPacket.Rebuilt | packages/artnet-packets/lib/diag-data/diag-data.ts:19-35 | a packet's payload given back to `new DiagData` builds the same packet |
| DiagDataPacket.CreateOfEncoded | packages/artnet-packets/lib/diag-data/diag-data.ts:52-62 | `create` of an encoded ArtDiagData of length at least 1 rebuilds exactly that packet |
| DiagDataPacket.CreateOfEmpty | packages/artnet-packets/lib/diag-data/diag-data.ts:55-56 | an encoded ArtDiagData of length 0 is never rebuilt: `create` returns null |
| DiagDataPacket.TestOverride | packages/artnet-packets/lib/diag-data/diag.test.ts:8-17 | the test payload names every field with a value that survives a round trip, so it is the whole packet after the header |
| DiagDataPacket.TestEncodeDecode | packages/artnet-packets/lib/diag-data/diag.test.ts:7-30 | the decoded datagram is the header plus the test payload, and its data length reads 10 |
| DiagDataPacket.TestCreate | packages/artnet-packets/lib/diag-data/diag.test.ts:32-48 | `create` of the encoded test packet rebuilds it |
| CommandPacket.Ones | packages/artnet-packets/lib/command/command.ts:22 | `'1'.repeat(n)` is n bytes, none of them NUL |
| CommandPacket.DefaultValues | packages/artnet-packets/lib/command/command.ts:17-24 | the defaults for length n are protocol version 14, manufacturer 0x1234, length n and n ones, and no header field |
| CommandPacket.Build | packages/artnet-packets/lib/command/command.ts:16-31 | `new Command` throws a RangeError exactly when the length is negative (from `'1'.repeat`), and otherwise holds the merged payload |
| CommandPacket.PayloadFields | packages/artnet-packets/lib/command/command.ts:16-30 | the packet has every field, its `length` is the given length or 512, and every field the payload gives is kept |
| CommandPacket.PayloadDefaults | packages/artnet-packets/lib/command/command.ts:18-24 | without data the packet holds `length` ones, and without a manufacturer 0x1234 |
| CommandPacket.PayloadHeader | packages/artnet-packets/lib/command/command.ts:30 | the header is "Art-Net" and the ArtCommand OpCode unless the payload gives them |
| CommandPacket.CommandBytes | packages/artnet-packets/lib/command/command.ts:9-14 | the `length` field sits at offset 4 and the schema with data n wide is 6 + n bytes |
| CommandPacket.GetDataLength | packages/artnet-packets/lib/command/command.ts:37-42 | null for a datagram that is not an ArtCommand; for one, the big-endian word at bytes 14 and 15; a short datagram throws |
| CommandPacket.GetDataLengthShared | packages/artnet-packets/lib/command/command.ts:28 | the width the shared static schema last received never changes what `getDataLength` reads |
| CommandPacket.Command.constructor | packages/artnet-packets/lib/command/command.ts:16-31 | the packet holds the defaults with the payload spread over them and the header in front, and its `data` record is `length` characters wide |
| CommandPacket.Command.Encode | packages/artnet-packets/lib/command/command.ts:30 | the packet encodes with its own schema |
| CommandPacket.Command.Decode | packages/artnet-packets/lib/command/command.ts:30 | decoding with the packet's schema, which leaves the packet's payload alone |
| CommandPacket.CreateSchemaIs | packages/artnet-packets/lib/command/command.ts:49-50 | `create` decodes with the ArtCommand schema alone, without the header |
| CommandPacket.Create | packages/artnet-packets/lib/command/command.ts:44-51 | null for a datagram of another kind and for a data length of 0 |
| CommandPacket.CreateWithHeader | packages/artnet-packets/lib/command/command.ts:44-51 | the intended `create`: null for another kind of datagram and for a data length of 0; a packet it builds comes from an ArtCommand of at least 16 bytes |
| CommandPacket.RoundTrip | packages/artnet-packets/lib/command/command.ts:16-31 | every ArtCommand built from fitting overrides encodes to 16 + length bytes with the length big-endian at bytes 14 and 15, and decodes back to its payload |
| CommandPacket.EncodedDataLength | packages/artnet-packets/lib/command/command.ts:37-42 | `getDataLength` of an encoded ArtCommand is its length |
| CommandPacket.Rebuilt | packages/artnet-packets/lib/command/command.ts:16-31 | a packet's payload given back to `new Command` builds the same packet |
| CommandPacket.CreateOfEncodedFails | packages/artnet-packets/lib/command/command.ts:44-51 | as written, `create` throws on every encoded ArtCommand with data: the header-less schema is 10 bytes shorter than the datagram |
| CommandPacket.CreateOfEncoded | packages/artnet-packets/lib/command/command.ts:44-51 | decoding with the header in front, `create` of an encoded ArtCommand with data rebuilds exactly that packet |
| CommandPacket.CreateOfEmpty | packages/artnet-packets/lib/command/command.ts:46-47 | an ArtCommand without data is never rebuilt: both forms of `create` return null |
| CommandPacket.TestOverride | packages/artnet-packets/lib/command/command.test.ts:8-13 | the test payload names every field with a value that survives a round trip, so it is the whole packet after the header |
| CommandPacket.TestEncodeDecode | packages/artnet-packets/lib/command/command.test.ts:15-23 | the decoded test datagram is the header plus the test payload |
| CommandPacket.TestCreate | packages/artnet-packets/lib/command/command.test.ts:25-29 | as written `create` throws on the encoded test packet; decoding with the header it rebuilds the packet |
| CommandPacket.PollIsNotCommand | packages/artnet-packets/lib/command/command.test.ts:31-35 | an encoded default ArtPoll is rejected by `Command.is`, and both forms of `create` return null for it |
| Devices.RangeIssues | packages/artnet-lib/core/device/generic/api-schema.ts:6-15 | a bounded number raises no issue exactly when it lies between its minimum and its maximum |
| Devices.NumberIssues | packages/artnet-lib/core/device/generic/api-schema.ts:12-15 | a numeric parameter raises no issue exactly when it is present, a number and within its bounds |
| Devices.LevelIssues | packages/artnet-lib/core/device/generic/api-schema.ts:6 | the elements of `channels` raise no issue exactly when every one is a level in 0..255 |
| Devices.ChannelsIssues | packages/artnet-lib/core/device/generic/api-schema.ts:3-8 | `setChannelsApi` raises no issue exactly when `channels` is an array of 1 to 512 levels in 0..255 |
| Devices.ChannelValueIssues | packages/artnet-lib/core/device/generic/api-schema.ts:10-16 | `setChannelApi` raises no issue exactly when `channel` is in 0..512 and `value` in 0..255 |
| Devices.Issues | packages/artnet-lib/core/device/generic/api-schema.ts:18 | the union schema raises no issue exactly when the action is one of the two well-formed shapes |
| Devices.Validate | packages/artnet-lib/core/device/common/device.ts:30-40 | `validate` passes exactly the well-formed actions and otherwise throws a validation error carrying every issue, of which there is at least one |
| Devices.ChannelSet | packages/artnet-lib/core/device/common/device.ts:18-28 | `setChannel` throws `CURRENT_PACKET_DATA_LIMIT` exactly when the channel is past the last one; otherwise it keeps the length and every other channel and stores the level clamped to 0..255 (the level itself when it is in range) |
| Devices.ChannelSetTwice | packages/artnet-lib/core/device/common/device.ts:18-28 | writing a channel twice leaves what the second write alone leaves |
| Devices.WriteFromForm | packages/artnet-lib/core/device/generic/generic.ts:18-20 | the `forEach` from index i on leaves the first min(n, size) channels clamped and the rest untouched, and throws when there are more levels than channels |
| Devices.ChannelsWrittenForm | packages/artnet-lib/core/device/generic/generic.ts:18-20 | `setChannels` writes level i to channel i, clamped, for every channel the device has, keeps the rest, and throws once a level has no channel |
| Devices.ActionApplied | packages/artnet-lib/core/device/generic/generic.ts:28-33 | `setAction` throws and writes nothing for an ill-formed action, does `setChannels` for a `setChannels` action and `setChannel` for a `setChannel` action |
| Devices.ActionsAppliedAppend | packages/artnet-lib/core/device/generic/generic.ts:35-39 | applying a + b is applying a, then b unless a threw |
| Devices.ActionsKeepSize | packages/artnet-lib/core/device/generic/generic.ts:35-39 | no sequence of actions changes the number of channels |
| Devices.Generic.constructor | packages/artnet-lib/core/device/generic/generic.ts:9-11 | a new device has the given number of channels, all 0 |
| Devices.Generic.GetDmxData | packages/artnet-lib/core/device/common/device.ts:45-47 | the copy has one level per channel, each the channel's level |
| Devices.Generic.SetChannel | packages/artnet-lib/core/device/common/device.ts:18-28 | the buffer becomes what `ChannelSet` says, or is left as it was when it throws |
| Devices.Generic.SetChannels | packages/artnet-lib/core/device/generic/generic.ts:18-20 | the outcome and buffer are `ChannelsWritten` of the old buffer |
| Devices.Generic.SetAction | packages/artnet-lib/core/device/generic/generic.ts:28-33 | the outcome and buffer are `ActionApplied` of the old buffer |
| Devices.Generic.SetActions | packages/artnet-lib/core/device/generic/generic.ts:35-39 | the outcome and buffer are `ActionsApplied` of the old buffer |
| Universes.SumReplace | packages/artnet-lib/core/universe/universe.ts:66-68 | replacing one device's size changes the universe's size by the difference |
| Universes.CalcSize | packages/artnet-lib/core/universe/universe.ts:23-26 | `calcSize` as written: with no index or index 0 the new device is added to the whole size; with another index in range the device there is replaced; an index out of range throws a TypeError |
| Universes.CalcSizeAtZero | packages/artnet-lib/core/universe/universe.ts:24 | replacing a 500-channel device at index 0 with another of 500 is counted as 1000 channels, not 500 |
| Universes.CalcSizeFixed | packages/artnet-lib/core/universe/universe.ts:23-26 | the size meant: the device at any index in range, index 0 included, is replaced; otherwise the new device is added |
| Universes.FullUniverseRejected | packages/artnet-lib/core/universe/universe.ts:28-34 | the test as written rejects one 512-channel device and two devices of 256 channels each, since the total must stay below 512 |
| Universes.AdmitsFrame | packages/artnet-lib/core/universe/universe.ts:28-34 | the test meant admits a device exactly when all devices together fill at most the 512 slots of a frame, so a default device alone fits |
| Universes.Placed | packages/artnet-lib/core/universe/universe.ts:44 | `devices[index] = device` replaces the device at the index, or appends when the index is the length, and keeps every other device |
| Universes.DeviceDataLength | packages/artnet-lib/core/universe/universe.ts:72-75 | the joined levels have as many entries as the universe has channels |
| Universes.DeviceDataAt | packages/artnet-lib/core/universe/universe.ts:72-75 | channel j of device k is the joined entry at the sizes of the devices before k, plus j |
| Universes.FrameKeepsLevels | packages/artnet-lib/core/universe/universe.ts:71-79 | with levels in 0..255 and a packet `length` of at least 255, `buildDmxData` stores the levels in the packet and returns its encoding |
| Universes.FrameRejects | packages/artnet-lib/core/universe/universe.ts:71-79 | a level above the packet's `length` makes `buildDmxData` throw and leaves the packet as it was |
| Universes.AddressRoundTrip | packages/artnet-lib/core/universe/universe.ts:47-62 | `getPortAddressInfo` reads back the net, sub-net and universe that `update` stored, for a universe number below 16; a missing universe (NaN, written as 0) reads back as sub-net 0 and universe 0 |
| Universes.AddressedOverwrites | packages/artnet-lib/core/universe/universe.ts:47-50 | a second `update` overwrites the first: only the latest net and sub-net byte stay |
| Universes.UniverseCarries | packages/artnet-lib/core/universe/universe.ts:47-62 | a universe number of 16 carries into the sub-net: sub-net 1 with universe 16 comes back as sub-net 2 with universe 0 |
| Universes.NamedGeneric | packages/artnet-lib/core/universe/universe.ts:100 | every device is a `Generic`: asking by that name gives all devices in order, and any other name gives none |
| Universes.Universe.constructor | packages/artnet-lib/core/universe/universe.ts:14-21 | a new universe has the name, no devices, and the given packet or a fresh ArtDmx of the given length |
| Universes.Universe.Add | packages/artnet-lib/core/universe/universe.ts:28-38 | `add` appends the device and returns its index when the new total stays below 512; otherwise it throws `UNIVERSE_MAX_SIZE_REACHED` and changes nothing |
| Universes.Universe.SetDevice | packages/artnet-lib/core/universe/universe.ts:40-45 | `setDevice` throws when `calcSize` throws or reaches 512, changing nothing; otherwise it stores the device at the index |
| Universes.Universe.Update | packages/artnet-lib/core/universe/universe.ts:47-50 | the packet gets the net and the sub-net shifted over the universe number, or sub-net byte 0 when the universe is missing; `getPortAddressInfo` then reads back that address |
| Universes.Universe.BuildDmxData | packages/artnet-lib/core/universe/universe.ts:71-79 | the devices' levels, joined end to end, go into the packet, and the result is the packet's encoding |
| Universes.Universe.GetRegisteredDevices | packages/artnet-lib/core/universe/universe.ts:81-88 | one entry per device: its index and its name |
| Universes.Universe.GetDevice | packages/artnet-lib/core/universe/universe.ts:99 | the device at the index, or null when the index is out of range |
| Communicators.BroadcastPieces | packages/artnet-lib/core/communicator/network-communicator.ts:140-146 | the broadcast address has one dotted piece per piece of the address, each the decimal text of its octet |
| Communicators.MaskOctetOf | packages/artnet-lib/core/communicator/network-communicator.ts:144 | a mask octet written in decimal is read by `~` as its value |
| Communicators.OctetOf | packages/artnet-lib/core/communicator/network-communicator.ts:144 | octet i of the broadcast address is the address octet with every bit set that the mask octet leaves clear |
| Communicators.OctetOfBytes | packages/artnet-lib/core/communicator/network-communicator.ts:144 | the same for octets written in decimal |
| Communicators.OctetOfFullAndEmptyMask | packages/artnet-lib/core/communicator/network-communicator.ts:144 | a mask octet of 255 keeps the address octet and a mask octet of 0 turns it into 255 |
| Communicators.OctetWithoutMask | packages/artnet-lib/core/communicator/network-communicator.ts:141-144 | an address octet with no mask octet becomes 255, since `undefined` acts as 0 under `~` |
| Communicators.BroadcastOctetAt | packages/artnet-lib/core/communicator/network-communicator.ts:140-146 | for dotted decimal address and mask, octet i of the broadcast address is address octet i with the bits that mask octet i leaves clear set |
| Communicators.BroadcastOctetsOf | packages/artnet-lib/core/communicator/network-communicator.ts:140-146 | so the broadcast octets are the masked address octets |
| Communicators.BroadcastOfOctets | packages/artnet-lib/core/communicator/network-communicator.ts:140-146 | and the broadcast address is the dotted text of the masked octets |
| Communicators.FirstWithAddress | packages/artnet-lib/core/communicator/network-communicator.ts:51-53 | `find` gives the first interface with the address, none before it having it, or none when no interface has it |
| Communicators.SelfMac | packages/artnet-lib/core/communicator/network-communicator.ts:50-56 | the MAC of the first interface with the address, else the MAC of the last interface, else all zeros |
| Communicators.Communicator.constructor | packages/artnet-lib/core/communicator/network-communicator.ts:22-36 | the configuration is stored, the broadcast address is computed from the address and mask, the MAC is chosen as `updateSelfMac` chooses it, and nothing has been sent |
| Communicators.Communicator.UpdateSelfMac | packages/artnet-lib/core/communicator/network-communicator.ts:50-56 | only the MAC changes, to the one `SelfMac` chooses |
| Communicators.Communicator.Send | packages/artnet-lib/core/communicator/network-communicator.ts:95-101 | the datagram is sent to the address, after every earlier one |
| Communicators.Communicator.SendBroadcast | packages/artnet-lib/core/communicator/network-communicator.ts:89-92 | the datagram is sent to the broadcast address |
| Nodes.DottedInjective | packages/artnet-lib/core/node/node.ts:27-29 | two number lists have the same `join('.')` text exactly when they are equal, so the MAC text identifies a node's MAC address |
| Nodes.PortsCheckSpec | packages/artnet-lib/core/node/node.ts:74-81 | `assertPortsCount` passes exactly the ports below the reply's `numPorts`, as `getNodeInfo` reports it, and otherwise throws `NODE_PORTS_LIMIT` |
| Nodes.PassingPrefix | packages/artnet-lib/core/node/node.ts:39-44 | the number of leading ports that pass `assertPortsCount`, where `forEach` stops: every port before it passes and the port at it fails |
| Nodes.LastKeyFor | packages/artnet-lib/core/node/node.ts:39-44 | the last of the given ports whose attached universe owns the packet, if any |
| Nodes.ReaddressedAgain | packages/artnet-lib/core/node/node.ts:39-44 | re-addressing a packet for one more port leaves it addressed for that port alone |
| Nodes.EncodeApplied | packages/artnet-lib/core/node/node.ts:144 | builds the ArtAddress, programs its switches and encodes it, giving `AppliedBytes` |
| Nodes.EncodePhysical | packages/artnet-lib/core/node/node.ts:158 | builds the ArtAddress, resets its switches and encodes it, giving `PhysicalBytes` |
| Nodes.ResetDataFields | packages/artnet-lib/core/node/node.ts:149-157 | the ArtAddress built from a reply carries its names, bind index, switches and `swOut`, and `swIn` is the reply's `swOut` |
| Nodes.ConfigureDefaults | packages/artnet-lib/core/node/node.ts:133-146 | with no overrides `configure` sends the reply's names and bind index, its switches with bit 7 set, and `swOut` with bit 7 set in both `swOut` and `swIn` |
| Nodes.ConfigureOverride | packages/artnet-lib/core/node/node.ts:142 | a field the caller names, other than the four port fields, goes out as given |
| Nodes.ResetFields | packages/artnet-lib/core/node/node.ts:148-160 | `resetToPhysicalSwitch` sends the same fields with bit 7 of every switch clear |
| Nodes.FirstNonEmptyName | packages/artnet-lib/core/node/node.ts:126 | `find(universe => universe.name)` gives the first universe whose name is not empty, with every one before it unnamed, or none when all are unnamed |
| Nodes.FirstNamed | packages/artnet-lib/core/node/node.ts:124-127 | the first universe with the given name, or none when no universe has it |
| Nodes.UniverseByNameIgnoresName | packages/artnet-lib/core/node/node.ts:124-127 | when the first universe is named, `getUniverse(name)` gives it even when its name is a different one |
| Nodes.DetachAfterAttach | packages/artnet-lib/core/node/node.ts:58-72 | attaching to a free port and then detaching from it leaves the ports as they were |
| Nodes.FrameKeepsAddress | packages/artnet-lib/core/node/node.ts:105-113 | sending a frame changes the levels and sequence only, so the port address stays |
| Nodes.PortFrameAddress | packages/artnet-lib/core/node/node.ts:109-112 | a port synced from the reply carries the reply's net and sub-net and the port's `swOut` universe; a port past the end of `swOut` carries sub-net 0 and universe 0 |
| Nodes.Node.constructor | packages/artnet-lib/core/node/node.ts:14-17 | a new node holds the reply and the communicator, was seen now, has no ports and is not alive |
| Nodes.Node.Update | packages/artnet-lib/core/node/node.ts:48-52 | the reply is replaced and the response time becomes now, and the ports and liveness stay |
| Nodes.Node.GetAttachedUniverses | packages/artnet-lib/core/node/node.ts:54-56 | the universes of the ports, in the order the ports were first attached |
| Nodes.Node.AttachUniverse | packages/artnet-lib/core/node/node.ts:58-65 | a port past `numPorts` throws and changes nothing; otherwise the universe is addressed from the reply's switches and `swOut[port]` (sub-net and universe 0 when `swOut` has no entry for the port) and bound to the port, where `getUniverse` then finds it |
| Nodes.Node.DetachUniverse | packages/artnet-lib/core/node/node.ts:67-72 | gives the universe that was on the port, or null, and frees that port only |
| Nodes.Node.GetUniverse | packages/artnet-lib/core/node/node.ts:129-130 | throws exactly when the port is past `numPorts`, else gives the universe on the port, or none |
| Nodes.Node.GetUniverseByName | packages/artnet-lib/core/node/node.ts:124-127 | gives an attached universe with a non-empty name |
| Nodes.Node.GetUniverseNamed | packages/artnet-lib/core/node/node.ts:124-127 | as meant: gives an attached universe with the name, and none only when no attached universe has it |
| Nodes.Node.SyncUniverse | packages/artnet-lib/core/node/node.ts:106-108 | the universe's frame is built and sent to the node's address, or the build error is returned and nothing is sent |
| Nodes.Node.SyncPort | packages/artnet-lib/core/node/node.ts:109-112 | a port past `numPorts` or a free port sends nothing and fails; otherwise the port's universe is re-addressed from the reply and its frame sent to the node |
| Nodes.Node.UpdateUniverseAddressInfo | packages/artnet-lib/core/node/node.ts:39-45 | passes exactly when every port given is below `numPorts`, and otherwise throws `NODE_PORTS_LIMIT`; the ports before the first failing one are done, so each attached packet is addressed from the reply for the last of them whose universe owns it, and a packet none of them reaches is unchanged |
| Nodes.Node.UpdatePortAddress | packages/artnet-lib/core/node/node.ts:41-43 | one `forEach` step: the port's count check, and on a pass the packet of the universe at that port addressed from the reply and `swOut[port]`, every other packet unchanged |
| Nodes.Node.SendFrames | packages/artnet-lib/core/node/node.ts:117-121 | sends up to one frame per attached universe to the node's address, all of them when it passes |
| Nodes.Node.SyncAll | packages/artnet-lib/core/node/node.ts:115-122 | a port past `numPorts` makes it throw before anything is sent; otherwise up to one frame per port goes to the node's address, all of them when it passes |
| Nodes.Node.Configure | packages/artnet-lib/core/node/node.ts:133-146 | the ArtAddress with the caller's fields and bit 7 set goes to the node's address, or the encoding error is returned |
| Nodes.Node.ResetToPhysicalSwitch | packages/artnet-lib/core/node/node.ts:148-160 | the ArtAddress with bit 7 clear goes to the node's address, or the encoding error is returned |
| NodeManagers.SnapshotShowsGetters | packages/artnet-lib/core/node/node-manager.ts:60-67 | an event's status shows the node's name, IP text and MAC text as the node's getters give them |
| NodeManagers.MatchingElements | packages/artnet-lib/core/node/node-manager.ts:117-121 | `filter` keeps exactly the nodes whose status the callback accepts |
| NodeManagers.MatchingDistinct | packages/artnet-lib/core/node/node-manager.ts:117-121 | filtering a list without repeats gives a list without repeats |
| NodeManagers.LastMatchIndex | packages/artnet-lib/core/node/node-manager.ts:129-160 | the position of the last node the callback accepts, none after it being accepted, or none when no node is |
| NodeManagers.LastOfMatching | packages/artnet-lib/core/node/node-manager.ts:129-160 | `filter(...).pop()` is empty exactly when no node matches and otherwise is the last matching node |
| NodeManagers.DeathEventsSnoc | packages/artnet-lib/core/node/node-manager.ts:42-51 | one more dead node adds one NODE_IS_DEAD event with that node's status, marked dead, at the end |
| NodeManagers.SkippedNodeStays | packages/artnet-lib/core/node/node-manager.ts:169-179 | when the first two nodes are both accepted, `removeNodes` as written keeps the second |
| NodeManagers.DeadNotOverdue | packages/artnet-lib/core/node/node-manager.ts:36-40 | a node marked dead is in no later pass's dead list until an update revives it, so NODE_IS_DEAD fires once per silence |
| NodeManagers.CutValid | packages/artnet-lib/core/node/node-manager.ts:174 | removing one node keeps every remaining node valid and adds none |
| NodeManagers.NodeManager.constructor | packages/artnet-lib/core/node/node-manager.ts:22-26 | an empty registry with no events, whose watcher runs with the default interval and death timeout |
| NodeManagers.NodeManager.Found | packages/artnet-lib/core/node/node-manager.ts:129-160 | a node found by name, IP or MAC is registered and shows that value |
| NodeManagers.NodeManager.Get | packages/artnet-lib/core/node/node-manager.ts:117-121 | with no callback a copy of the list; with one the accepted nodes, in order, and every accepted node |
| NodeManagers.NodeManager.GetBy | packages/artnet-lib/core/node/node-manager.ts:129-160 | `getByName`, `getByIp` and `getByMac` give the last node with the value, or null |
| NodeManagers.NodeManager.WatchTick | packages/artnet-lib/core/node/node-manager.ts:33-52 | a watcher pass at `now` marks dead exactly the alive nodes silent for the death timeout, emits one NODE_IS_DEAD per such node in list order, removes none and changes nothing else |
| NodeManagers.NodeManager.MarkOverdue | packages/artnet-lib/core/node/node-manager.ts:36-40 | the nodes `get` finds overdue are returned and marked dead |
| NodeManagers.NodeManager.MarkDead | packages/artnet-lib/core/node/node-manager.ts:40 | the given nodes are marked dead and every other node keeps its state |
| NodeManagers.NodeManager.EmitDeaths | packages/artnet-lib/core/node/node-manager.ts:42-51 | one NODE_IS_DEAD event per dead node, in order, and nothing else changes |
| NodeManagers.NodeManager.AddNode | packages/artnet-lib/core/node/node-manager.ts:55-70 | a new node for the reply, seen now and not alive, joins the end of the list, and one NEW_NODE_REGISTERED event is emitted |
| NodeManagers.NodeManager.UpdateNode | packages/artnet-lib/core/node/node-manager.ts:72-89 | the last node with the reply's MAC takes the reply and the time, becomes alive and emits one NODE_STATUS_UPDATED; with no such node nothing changes |
| NodeManagers.NodeManager.UpdateNodeDeathTimeout | packages/artnet-lib/core/node/node-manager.ts:95-98 | the timeout becomes the given one, or the default, and is returned |
| NodeManagers.NodeManager.AddOrUpdateNode | packages/artnet-lib/core/node/node-manager.ts:106-108 | the node with the reply's MAC is updated, else a new node is appended; exactly one event is emitted, other nodes are unchanged, and no two nodes come to share a MAC |
| NodeManagers.NodeManager.RemoveNodes | packages/artnet-lib/core/node/node-manager.ts:169-179 | as written: the result is the skipping walk over the list, which passes over the node right after each removed one |
| NodeManagers.NodeManager.RemoveByMacExact | packages/artnet-lib/core/node/node-manager.ts:169-179 | with MAC addresses unique, the as-written walk with a MAC callback removes exactly the node `getByMac` finds, or nothing, keeps the others in order, and its last removed node is that one |
| NodeManagers.NodeManager.SpliceOut | packages/artnet-lib/core/node/node-manager.ts:174 | the node at its position leaves the list and is returned |
| NodeManagers.NodeManager.RemoveMatching | packages/artnet-lib/core/node/node-manager.ts:169-179 | as meant: every accepted node is removed and returned, in order, and the others stay in order |
| NodeManagers.NodeManager.StopWatch | packages/artnet-lib/core/node/node-manager.ts:233-235 | the watcher stops and nothing else changes |
| NodeManagers.NodeManager.Watch | packages/artnet-lib/core/node/node-manager.ts:227-230 | the watcher restarts with the given interval and timeout, or the defaults |
| NodeManagers.NodeManager.Dispose | packages/artnet-lib/core/node/node-manager.ts:237-240 | as written: `splice(0, -1)` removes no node, so only the watcher stops |
| NodeManagers.NodeManager.Clear | packages/artnet-lib/core/node/node-manager.ts:237-240 | as meant: the registry is emptied and the watcher stops |
| Discoveries.MacNumbersOfHex | packages/artnet-lib/core/discovery/discovery.ts:38 | a MAC address written as colon-separated hex octets is read back as those octets |
| Discoveries.IpNumbersOfDotted | packages/artnet-lib/core/discovery/discovery.ts:34 | an address written as dotted decimal numbers is read back as those numbers |
| Discoveries.Given | packages/artnet-lib/core/discovery/discovery.ts:39-40 | `payload?.key ?? fallback` is the payload's field when present and defined, else the fallback |
| Discoveries.OverridesWin | packages/artnet-lib/core/discovery/discovery.ts:36-41 | every field the reply is built with wins over the packet's defaults and header |
| Discoveries.ReplyInfoFields | packages/artnet-lib/core/discovery/discovery.ts:33-42 | the reply always carries the communicator's MAC, the payload's port and IP or else the bound port and IP, and every other field the payload gives |
| Discoveries.DecodedReplyTyped | packages/artnet-lib/core/discovery/discovery.ts:93 | every payload decoded with the ArtPollReply layout has the fields a node reads, of the kinds it reads them as |
| Discoveries.PollBytes | packages/artnet-lib/core/discovery/discovery.ts:50 | the ArtPoll datagram is the encoding of the default ArtPoll and decodes back to it |
| Discoveries.Discovery.constructor | packages/artnet-lib/core/discovery/discovery.ts:24-31 | inactive, with no poll scheduled, the default interval, the given reply policy, and a reply built from the communicator |
| Discoveries.Discovery.SetReplyInfo | packages/artnet-lib/core/discovery/discovery.ts:33-42 | the reply becomes the ArtPollReply built from the payload and the communicator |
| Discoveries.Discovery.UpdateReplyInfo | packages/artnet-lib/core/discovery/discovery.ts:44-46 | the reply is rebuilt from the communicator alone |
| Discoveries.Discovery.DiscoveryLoop | packages/artnet-lib/core/discovery/discovery.ts:48-54 | while active, one ArtPoll goes to the broadcast address and the next poll is scheduled; while inactive nothing happens |
| Discoveries.Discovery.Run | packages/artnet-lib/core/discovery/discovery.ts:56-61 | after stopping, discovery is active, the registry keeps its nodes, the watcher runs with its defaults, and one ArtPoll is broadcast |
| Discoveries.Discovery.Stop | packages/artnet-lib/core/discovery/discovery.ts:63-67 | inactive, no poll scheduled, and the registry's `dispose` run as written: its watcher stops and its nodes stay |
| Discoveries.Discovery.UpdatePollingInterval | packages/artnet-lib/core/discovery/discovery.ts:69-72 | the interval becomes the given one, or the default, and is returned |
| Discoveries.Discovery.GetStatus | packages/artnet-lib/core/discovery/discovery.ts:74-76 | RUNNING exactly when active |
| Discoveries.Discovery.HandleArtPoll | packages/artnet-lib/core/discovery/discovery.ts:78-86 | an ArtPoll, when replying is on, is answered by sending the encoded reply to its sender; anything else sends nothing |
| Discoveries.Discovery.HandleArtNetDeviceReply | packages/artnet-lib/core/discovery/discovery.ts:88-94 | an ArtPollReply is decoded and its node is registered or updated with the reply at the time it arrived; anything else leaves the registry alone |
| ArtNets.ChannelCounts | packages/artnet-lib/core/art-net.ts:126-128 | one channel count per device description, 512 where none is given |
| ArtNets.SumPrefix | packages/artnet-lib/core/universe/universe.ts:66-68 | the channels of a prefix of the devices never exceed those of all of them |
| ArtNets.UniversesValidWithin | packages/artnet-lib/core/art-net.ts:14 | a list of universes drawn from a valid list is valid |
| ArtNets.NameIndexFrom | packages/artnet-lib/core/art-net.ts:57 | `findIndex` from a position on gives the first universe with the name, or none when no later universe has it |
| ArtNets.UniqueNamesSnoc | packages/artnet-lib/core/art-net.ts:137-145 | pushing a universe of a new name keeps names unique |
| ArtNets.At | packages/artnet-lib/core/art-net.ts:195 | `universes[i]` is defined exactly for positions in the list |
| ArtNets.FindIndex | packages/artnet-lib/core/art-net.ts:194 | the first position of the name, or -1 exactly when no universe has it |
| ArtNets.CutName | packages/artnet-lib/core/art-net.ts:196 | with unique names, cutting a universe out keeps names unique and leaves its name nowhere |
| ArtNets.ApplyInvalid | packages/artnet-lib/core/art-net.ts:252-254 | an action the API rejects makes the first device throw and changes no levels |
| ArtNets.ApplyPassed | packages/artnet-lib/core/art-net.ts:252-254 | when no device throws, every device holds the action's result and no earlier device changes |
| ArtNets.ArtNet.constructor | packages/artnet-lib/core/art-net.ts:19-23 | a communicator on the given network, an empty node registry on it, and inactive discovery with the given reply policy |
| ArtNets.ArtNet.IsUniverseExist | packages/artnet-lib/core/art-net.ts:56-58 | true exactly when some universe has the name |
| ArtNets.ArtNet.GetUniverseByName | packages/artnet-lib/core/art-net.ts:66-68 | a registered universe of that name, found exactly when one exists |
| ArtNets.ArtNet.GetUniverseByNameUnique | packages/artnet-lib/core/art-net.ts:66-68 | with unique names it is the one universe of that name, at its position |
| ArtNets.ArtNet.CreateDevices | packages/artnet-lib/core/art-net.ts:126-128 | a fresh device per description with the given channel count, all levels 0, no two sharing a buffer |
| ArtNets.ArtNet.Register | packages/artnet-lib/core/art-net.ts:145 | the universe joins the end of the list |
| ArtNets.ArtNet.AddAll | packages/artnet-lib/core/art-net.ts:141-143 | every device is added in order unless together they reach 512 channels, which throws |
| ArtNets.ArtNet.NewUniverse | packages/artnet-lib/core/art-net.ts:139-143 | a fresh universe of the name holding the described devices, or an error when they reach 512 channels |
| ArtNets.ArtNet.CreateUniverse | packages/artnet-lib/core/art-net.ts:136-147 | null when the name is taken; otherwise a new universe with those devices joins the list, unless they reach 512 channels, which throws and registers nothing |
| ArtNets.ArtNet.AddDevice | packages/artnet-lib/core/art-net.ts:157-166 | as written: null whatever the name, since an existing universe returns before the add and a missing one has nothing to add to |
| ArtNets.ArtNet.AddDeviceToUniverse | packages/artnet-lib/core/art-net.ts:149-166 | as documented: null when no universe has the name; otherwise the new device is appended and its index returned, unless the universe would reach 512 channels |
| ArtNets.ArtNet.Add | packages/artnet-lib/core/art-net.ts:163 | `universe.add(device)` on a registered universe, keeping the whole registry valid |
| ArtNets.ArtNet.SetDevice | packages/artnet-lib/core/art-net.ts:175-184 | null when no universe has the name; otherwise the universe's `setDevice` with a fresh device, its errors passed on |
| ArtNets.ArtNet.Place | packages/artnet-lib/core/art-net.ts:183 | `universe.setDevice(device, index)` on a registered universe, keeping the whole registry valid |
| ArtNets.ArtNet.SpliceUniverse | packages/artnet-lib/core/art-net.ts:196 | the list becomes what `splice(start, 1)` leaves |
| ArtNets.ArtNet.RemoveUniverse | packages/artnet-lib/core/art-net.ts:191-198 | as written: an existing name gives null and removes nothing, and a missing name removes the last universe and gives undefined |
| ArtNets.ArtNet.RemoveNamedUniverse | packages/artnet-lib/core/art-net.ts:186-198 | as documented: null when no universe has the name; otherwise that universe is removed and returned, and the name is no longer found |
| ArtNets.ArtNet.AttachUniverse | packages/artnet-lib/core/art-net.ts:207-224 | null when the universe or the node is missing; otherwise the node's `attachUniverse`, its port error passed on |
| ArtNets.ArtNet.Attach | packages/artnet-lib/core/art-net.ts:218 | `node.attachUniverse(port, universe)` for a registered node and universe, keeping the registry valid |
| ArtNets.ArtNet.DetachUniverse | packages/artnet-lib/core/art-net.ts:231-235 | null when no node has the MAC; otherwise the node's `detachUniverse` |
| ArtNets.ArtNet.Detach | packages/artnet-lib/core/art-net.ts:234 | the node's port is freed and its universe returned |
| ArtNets.ArtNet.SetDeviceGroupAction | packages/artnet-lib/core/art-net.ts:244-257 | null when no universe has the name; otherwise the action goes to every device of the class in order, stopping at the first throw, and no other buffer changes |
| ArtNets.ArtNet.ApplyToGroup | packages/artnet-lib/core/art-net.ts:252-254 | the action on the devices of one class in a registered universe |
| ArtNets.ArtNet.GroupBuffers | packages/artnet-lib/core/art-net.ts:252 | the devices of one class own their buffers, which belong to the registry |
| ArtNets.ArtNet.ApplyToAll | packages/artnet-lib/core/art-net.ts:252-254 | the `forEach` leaves what `ApplyFrom` says |
| ArtNets.ArtNet.Target | packages/artnet-lib/core/art-net.ts:273 | the buffer a device action may write belongs to the registry |
| ArtNets.ArtNet.SetDeviceAction | packages/artnet-lib/core/art-net.ts:266-275 | null when no universe has the name; a missing device changes nothing; otherwise that device's levels and the outcome are `ActionApplied` of its old levels, and no other buffer changes |
| ArtNets.ArtNet.ApplyToDevice | packages/artnet-lib/core/art-net.ts:273 | the action on one device of a registered universe |
| ArtNets.ArtNet.SetUniverseAction | packages/artnet-lib/core/art-net.ts:277-288 | null exactly when no universe has the name, and then no level changes; otherwise that universe, or the first device's throw; a `Group` action leaves the devices of the class as `ApplyFrom` of their old levels says, an `Exact` one leaves the device at the index as `ActionApplied` says, and no other buffer changes |
| ArtNets.ArtNet.RemoveNode | packages/artnet-lib/core/art-net.ts:107-109 | as written: the registry keeps what the skipping `removeNodes` walk keeps, and the last node it removed is returned, or null |
| ArtNets.ArtNet.Init | packages/artnet-lib/core/art-net.ts:45-49 | discovery runs and RUNNING is returned; the registry keeps its nodes, the watcher runs and one ArtPoll is broadcast |
| ArtNets.ArtNet.Dispose | packages/artnet-lib/core/art-net.ts:346-349 | discovery stops: the registry's watcher is stopped and, as written, its nodes stay |
| JsArrays.IndexOf | packages/artnet-lib/core/node/node-manager.ts:174 | `indexOf` gives the first position holding the element, and -1 (none) exactly when it is absent |
| JsArrays.IndexOfDistinct | packages/artnet-lib/core/node/node-manager.ts:174 | in an array without repeats the position of an element is its index |
| JsArrays.Splice | packages/artnet-lib/core/node/node-manager.ts:174 | `splice` neither loses nor invents elements: what stays and what it returns together are the array |
| JsArrays.SpliceNothing | packages/artnet-lib/core/node/node-manager.ts:238 | a delete count of zero or less removes nothing, wherever it starts |
| JsArrays.SpliceAt | packages/artnet-lib/core/node/node-manager.ts:174 | `splice(i, 1)` at a position of the array removes that element alone and returns it |
| JsArrays.SpliceLast | packages/artnet-lib/core/art-net.ts:194-196 | `splice(-1, 1)`, which a `findIndex` miss produces, removes the last element |
| JsArrays.SpliceAll | packages/artnet-lib/core/node/node-manager.ts:237-238 | `splice(0, length)` empties the array |
| JsArrays.SkipKeep | packages/artnet-lib/core/node/node-manager.ts:172-176 | a step past an element the callback rejects keeps it and removes nothing |
| JsArrays.SkipRemove | packages/artnet-lib/core/node/node-manager.ts:172-176 | a step that splices out the current element makes the iterator pass over the element after it |
| JsArrays.DistinctCut | packages/artnet-lib/core/node/node-manager.ts:174 | removing an element keeps an array without repeats and adds nothing |
| JsArrays.SpliceWhileIteratingAt | packages/artnet-lib/core/node/node-manager.ts:174 | on an array without repeats the element spliced out is the current one |
| JsArrays.SpliceWhileIteratingSkips | packages/artnet-lib/core/node/node-manager.ts:172-176 | on an array without repeats the loop from a position on ends as the skipping description says |
| JsArrays.SpliceWhileIteratingIsSkipRemoved | packages/artnet-lib/core/node/node-manager.ts:172-176 | so on such an array the whole `for...of` with splices is the skipping walk |
| JsArrays.SkippedStays | packages/artnet-lib/core/node/node-manager.ts:172-176 | when the first two elements both match, the second stays in the array |
| JsArrays.SkipRemovesSome | packages/artnet-lib/core/node/node-manager.ts:172-176 | the walk removes something exactly when some element matches |
| JsArrays.SkipRemovedNone | packages/artnet-lib/core/node/node-manager.ts:172-176 | when no element matches, the walk keeps the array and removes nothing |
| JsArrays.SkipRemovedOne | packages/artnet-lib/core/node/node-manager.ts:172-176 | when exactly one element matches, the walk removes that one alone and keeps the rest in order |
| JsNumbers.ToUint32 | packages/artnet-lib/core/communicator/network-communicator.ts:144 | the operand of a bitwise operator taken modulo 2^32, unchanged when already in range |
| JsNumbers.ToInt32 | packages/artnet-lib/core/universe/universe.ts:59 | the operand read as a signed 32-bit number, unchanged when below 2^31 |
| JsNumbers.OrIdempotent | packages/artnet-packets/lib/address/address.ts:40-43 | `x \| m` applied twice is applied once, for every number x |
| JsNumbers.AndNotIdempotent | packages/artnet-packets/lib/poll/poll.ts:44-76 | `x & ~m` applied twice is applied once, for every number x |
| JsNumbers.OrSingleBit | packages/artnet-packets/lib/address/address.ts:40-43 | `x \| 2^k` sets bit k of x and keeps every other bit |
| JsNumbers.AndNotSingleBit | packages/artnet-packets/lib/poll/poll.ts:44-76 | `x & ~2^k` clears bit k of x and keeps every other bit |
| JsNumbers.AndLowMask | packages/artnet-packets/lib/address/address.ts:48-51 | `x & (2^k - 1)`, as `& 0x7f` and `& 0xf` use it, is x modulo 2^k for every number x |
| JsNumbers.ByteAndNot | packages/artnet-lib/core/communicator/network-communicator.ts:144 | `~m & 0xff` is 255 minus the low byte of m |
| JsNumbers.NibblePacking | packages/artnet-lib/core/universe/universe.ts:47-62 | `(s << 4) + u` read back with `>> 4` and `& 0xf` gives s and u, for a universe below 16 |
| JsStrings.SplitJoin | packages/artnet-lib/core/communicator/network-communicator.ts:141-145 | splitting what `join` built gives back the parts, when no part holds the separator |
| JsStrings.JoinSplit | packages/artnet-lib/core/communicator/network-communicator.ts:141-145 | joining the pieces of a split gives back the string |
| JsStrings.SplitJoinNumbers | packages/artnet-lib/core/communicator/network-communicator.ts:141-145 | the pieces of a joined list of numbers are the numbers' decimal texts |
| JsStrings.ParseIntOfString | packages/artnet-lib/core/communicator/network-communicator.ts:144 | `parseInt` reads back the decimal text of any integer |
| JsStrings.NumberOfString | packages/artnet-lib/core/communicator/network-communicator.ts:144 | `Number`, which `~` applies, reads back the decimal text of any integer |
| JsStrings.ParseHexOctet | packages/artnet-lib/core/discovery/discovery.ts:38 | `parseInt(_, 16)` reads back a byte written as two hex digits |
| JsStrings.ParseMac | packages/artnet-lib/core/discovery/discovery.ts:38 | splitting a colon-separated MAC text and reading each piece as hex gives the bytes |

## Left out

- UDP socket I/O: `NetworkCommunicator.init`, `dispose` and `changeNetwork`, the socket's message and error handlers, and `enumerateNetworkConnections`. The model replaces the socket with an outbox and gives the interface list as an argument.
- Timers: `setInterval` in the node watcher and `setTimeout` in the discovery loop. A timer that fires is a method call (`WatchTick`, `DiscoveryLoop`) with the time given as `now`.
- `Promise.all` fan-out and the number of bytes a send reports. Asynchronous sends are appended to the outbox in call order.
- Event listeners and the typed emitter. Emitted events are appended to a log, and no listener runs.
- Logging: the debug output of `handleArtPoll`, the `console.log` of the command packet, the `@Log` decorator and the injected loggers.
- The MixPanel150 driver, the device factory and device registration. `Generic` is the one device class, and `createDevices` builds `Generic` devices from their constructor arguments.
- The zod validation library. `Devices.Issues` writes out the bounds of the two generic action schemas (`setChannels`, `setChannel`) as a function that lists the issues.
- `ArtNet.changeNetwork`, `createDevice`, `getBoundNetworkInfo`, `sendBroadcast`, `getSupportedDevices` and `enumerateInterfacesInfo`: they only forward to the socket, the factory or the host's interface list, which are left out above.
- `ArtNet.broadcastUniverse`, `multicastUniverse` and `unicastUniverse`: each first runs `setUniverseAction` (modelled by `ArtNets.ArtNet.SetUniverseAction`) and, when it gives a universe, sends it: by broadcast, by `syncAllNodes`, or by the node's `syncRemotePort`. The sending half is not modelled; it goes through the socket and the node calls left out above.
- `NodeManager.configureNode`, `attachUniverse`, `detachUniverse`, `syncNode` and `syncAllNodes`: they look a node up by name (modelled by `GetBy`) and call the node's method of the same name (modelled in `Nodes.Node`).
- The `ArtNet` constructor's `LibConfig` defaults. The network configuration and the `sendArtPollReply` option are its parameters.
- Character encodings: strings are byte sequences, written and read one byte per character. UTF-8 multi-byte characters are not modelled.
- Floating point: a JavaScript number is a mathematical integer, and NaN is `None`. The bitwise operators treat NaN as 0, as JavaScript does. The NaN sub-net that `update` stores for a port with no `swOut` entry is stored as 0, which is what `writeUInt8` and the shifts and masks of `getPortAddressInfo` make of it.
- `JsStrings.NumberOf`: `Number` is modelled for the forms an address octet takes (white space, an empty string, signed decimal, "0x" hex). A fraction, an exponent, "Infinity" and the "0b"/"0o" forms are not modelled and read as NaN here.
- Integer widths. `Buffer`'s range checks on writes are modelled as `RangeError`. The 32-bit bitwise operators are written out in `JsNumbers`. Other arithmetic is unbounded.
- Typed-array views and host byte order: decoding an array of 2- or 4-byte elements assumes a little-endian host and a buffer that owns its memory from offset 0.
- The Art-Net OpCode table lacks `COMMAND`. The model uses 0x2400, the OpCommand of Art-Net 4.
- The ArtPoll flag masks and diagnostic priorities come from the Art-Net 4 ArtPoll Flags and DiagPriority tables, because the poll package's constants file is not part of this model. The test's flags value 0b00011010 agrees with them.
- `ArtNetPackets.HeaderSchema`, the packet schemas that use `size` (`DmxPacket.DmxSchema`, `AddressPacket.AddressSchema`, `DiagDataPacket.DiagSchema`, `IpProgPacket.IpProgSchema`) and `Schemas.OffsetOf`: the header (its `opCode` record) and the ArtDmx, ArtAddress, ArtDiagData and ArtIpProg schemas give a number record's width as `size`, but the protocol package's `PacketSchemaRecord`, its number reader and writer, `getOffsetOf` and `calcBytesInPacket` read only `length`. The ArtPoll, ArtPollReply, ArtSync and ArtCommand schemas (`PollPacket.PollSchema`, `PollReplyPacket.PollReplySchema`, `SyncPacket.SyncSchema`, `CommandPacket.CommandSchema`) give their number widths as `length` and need no such reading on their own; only the header joined in front of them does. As written the byte count of every full Art-Net layout (header included) is NaN, `Buffer.alloc` throws and no Art-Net packet encodes or decodes. The model reads a number record's `size` as its width. Every Art-Net encode and decode row rests on this reading.
- `Protocol.Packet.constructor`: `Packet` expects a list of schema records (`PacketSchemaPublic`) and builds `new Schema(packetSchema)`, but `ArtNetPacket` passes it a `Schema` instance. As written that does not type-check. At run time `structuredClone` of the instance gives a plain object `{schema: Map}` without the class's `[Symbol.iterator]`, so `new Map(...)` throws "TypeError: object is not iterable", and every Art-Net packet constructor throws before any encode. The model reads the call as passing the instance's entries (the records behind `Layout(...)`). The protocol test imports `Packet` from `./packet/packet`, which is not part of this model, so the `Packet` the Art-Net packages import may differ from the one in `protocol.ts`.
- `Schemas.OffsetOf`: `Schema.getOffsetOf(key)`, which `getDmxDataLen`, `getDiagDataLength` and `getDataLength` call, is defined nowhere in the protocol package, so as written those calls throw a TypeError. The model supplies it as the packed offset of the key's first record.
- HeaderLength (`ArtNetPackets.HeaderLength`): the packed size of 10 holds under the size-as-width reading above; as written the header's `calcBytesInPacket` is NaN, since `opCode` has no `length`.
- Sizes (`SyncPacket.Sizes`, `IpProgPacket.Sizes`, `PollReplyPacket.Sizes`, `AddressPacket.Sizes`): the byte counts with the header in front (14, 34, 236 and 107) hold only under the size-as-width reading above, and as written each is NaN. On their own the ArtSync and ArtPollReply schemas count 4 and 226 bytes as written; the ArtIpProg and ArtAddress schemas (24 and 97) use `size` and are NaN as written too.
- CommandBytes (`CommandPacket.CommandBytes`): the 6 + n bytes of the ArtCommand schema hold as written, since its records use `length`. The offset 4 holds only for the supplied `getOffsetOf` above; as written that call throws a TypeError.
- GetDmxDataLen (`DmxPacket.GetDmxDataLen`): as written the call to the missing `getOffsetOf` throws a TypeError for every datagram; the model reads the word at the offset the supplied `OffsetOf` gives.
- GetDiagDataLength (`DiagDataPacket.GetDiagDataLength`): as for `GetDmxDataLen`, the missing `getOffsetOf` throws as written, and the model reads the word at the supplied offset.
- GetDataLength (`CommandPacket.GetDataLength`): as for `GetDmxDataLen`, the missing `getOffsetOf` throws as written, and the model reads the word at the supplied offset.
- constructor (`Devices.Generic.constructor`, and `ArtNets.DeviceArgs` whose channel count feeds it): the size is a `nat`. A negative `numChannels` passed to `createUniverse` or `addDevice` reaches `new Array(dmxDataSize)`, which throws a RangeError; the model does not represent that input or that error.
- `DmxPacket.Dmx.constructor`: a payload given with a sparse `dmxData` (one that already has holes) is not represented; the packet starts with no holes, as every packet the library builds does. Nor is a `length` below 0 or of 2^32 and more: the defaults' `new Array(length)` is evaluated before the payload is spread, so for such a length the constructor throws a RangeError even when `dmxData` is given. The constructor requires a length in 0 to 2^32 - 1 and does not represent that error.
- `DiagDataPacket.DiagData.constructor`: a negative `length` is not represented. The source takes it without a check and makes it the width of the `data` record; the constructor requires a `length` of at least 0, and what a negative width makes of the schema and of `encode` is not modelled.
- `Universes.Universe.constructor`: without a control packet, a `maxDMXLength` below 0 or of 2^32 and more reaches `new Dmx({length})`, which throws the RangeError above. The constructor requires a length in range and does not represent that error. The library's one call site passes 512.
- `ArtNets.ArtNet.Valid` keeps universe names unique, as `createUniverse` does. `Universe.name` is a public accessor, so a caller can rename a registered universe to another one's name; renaming is not modelled, and a registry holding two universes of one name, on which `isUniverseExist`, `getUniverseByName` and `removeUniverse` act on the first match, is outside the model.
- Import names: `node.ts` imports `AddressPacket` and `discovery.ts` imports `PollPacket` and `PollReplyPacket` from the Art-Net packet package, whose index exports these classes as `Address`, `Poll` and `PollReply`. As written the three imported names are undefined, and `new AddressPacket(...)`, `new PollPacket()` and `PollReplyPacket.is` throw a TypeError. The model reads them as the exported classes.
- `Nodes.Node.constructor`: it requires a reply whose fields have the types of the ArtPollReply schema, as every reply decoded by discovery has (`Discoveries.DecodedReplyTyped`). Replies of any other shape are not modelled.
- Node predicates given to `NodeManager.get` and `removeNodes` see a node's status (reply, liveness, last response time), not the node object.
- `Nodes.Node.SendFrames`: the count sent is bounded, and all are sent on success. The contract does not tie each datagram to the frame of a particular port.
- `Nodes.Node.SyncAll`: as for `SendFrames`, the datagrams are counted but not matched to ports.
- `Discoveries.ReplyInfoFields`: it states the MAC, IP and port fields and every override. It does not state the defaults of the fields the override leaves out.
- `Discoveries.Discovery.HandleArtNetDeviceReply`: on a decoded reply, it states that some registered node holds that reply at the time given. Which node it is (the existing node or a new one) is stated by `NodeManagers.NodeManager.AddOrUpdateNode`, which it calls.

## Findings

| source | as written | input that shows it | evidently intended | confidence | as-written member | corrected member |
|---|---|---|---|---|---|---|
| packages/artnet-packets/lib/dmx/dmx.ts:73-77 | `sequence = sequence >= 255 ? 0 : sequence++` assigns the value from before the increment, so the sequence never advances | a packet with sequence 5: `incSequence()` leaves 5 | the sequence advances by one and wraps to 0 after 255 | not executed | DmxPacket.SequenceStalls | DmxPacket.NextSequenceAdvances |
| packages/artnet-packets/lib/dmx/dmx.ts:90-101 | `checkChannelInRange` rejects only `channel > length`, so channel `length` passes and writes one slot past the data | a default 512-channel packet: `setChannel(512, v)` grows `dmxData` to 513 and the next `encode` throws | channel must be below `length` | not executed | DmxPacket.ChannelAtLengthBreaksEncode | DmxPacket.ChannelWriteInRange |
| packages/protocol/lib/schema/schema.ts:17-19 | `calcBytesInPacket` adds each record's `length`, ignoring an array's element size | the protocol test schema with a four-byte array: the buffer is too short and `encode` throws | the total is each record's byte span, count times element size for arrays | not executed | Protocol.TestEncodeFails | Encoder.RoundTripPacked |
| packages/artnet-packets/lib/command/command.ts:44-51 | `create` decodes with the header-less `schemaDefault` | any encoded ArtCommand with data: the size check fails by the 10 header bytes | decode with the header and the packet schema, as the other packets do | not executed | CommandPacket.CreateOfEncodedFails | CommandPacket.CreateOfEncoded |
| packages/artnet-lib/core/universe/universe.ts:23-26 | `(index && size) ?? 0` is 0 for index 0, so replacing the first device does not subtract its size | replacing a 500-channel device at index 0 with another of 500 counts 1000 channels | subtract the size of the device at any given index | not executed | Universes.CalcSizeAtZero | Universes.CalcSizeFixed |
| packages/artnet-lib/core/universe/universe.ts:28-34 | `add` rejects when the total is `>=` 512 | one device of 512 channels, the default size, is rejected | a universe holds up to the 512 channels of a frame | not executed | Universes.FullUniverseRejected | Universes.AdmitsFrame |
| packages/artnet-lib/core/node/node.ts:124-127 | `getUniverse(name)` finds the first universe whose name is non-empty, ignoring the argument | ports holding universes "a" then "b": `getUniverse("b")` gives "a" | the universe whose name equals the argument | not executed | Nodes.UniverseByNameIgnoresName | Nodes.Node.GetUniverseNamed |
| packages/artnet-lib/core/node/node-manager.ts:169-179 | `removeNodes` splices inside `for…of`, so the node after each removed one is skipped | two nodes both matching: only the first is removed | every matching node is removed | not executed | NodeManagers.SkippedNodeStays | NodeManagers.NodeManager.RemoveMatching |
| packages/artnet-lib/core/node/node-manager.ts:237-240 | `dispose` calls `splice(0, -1)`, whose negative delete count removes nothing | a manager with one node keeps it after `dispose()` | the registry is emptied | not executed | NodeManagers.NodeManager.Dispose | NodeManagers.NodeManager.Clear |
| packages/artnet-lib/core/art-net.ts:191-198 | `removeUniverse` returns null when the universe exists; for a missing name `findIndex` gives -1 and `splice(-1, 1)` drops the last universe | universes "a", "b": `removeUniverse("a")` gives null, `removeUniverse("x")` removes "b" | remove the universe with the name, and return null when there is none | not executed | ArtNets.ArtNet.RemoveUniverse | ArtNets.ArtNet.RemoveNamedUniverse |
| packages/artnet-lib/core/art-net.ts:157-166 | `addDevice` returns null when the universe exists, and otherwise finds no universe | any call: no device is ever added | add the device to the named universe when it exists | not executed | ArtNets.ArtNet.AddDevice | ArtNets.ArtNet.AddDeviceToUniverse |
