# BTHome v2 payload builder

A Dafny model of `bthome::PayloadBuilder`, the part of the BTHome_test firmware
that turns already-scaled sensor readings into the bytes of a BLE
advertisement in the BTHome v2 format.

The builder keeps a device name, fixed at construction, and a growable array
of pending `ServiceDataItem {dataType, dataValue}` records.
- `addServiceDataItem` and the `addTemperature` / `addHumidity` / `addPressure`
  wrappers append to the array.
- `resetServiceData` empties it.
- `getServiceData` sorts the array in place by object id. It then writes a
  Service Data – 16-bit UUID AD structure: length byte, `0x16`, UUID `0xFCD2`
  low byte first, device-info byte `0x40`, then a tag byte and 2 or 3
  little-endian value bytes per item.
- `getAdvertisingPayload` puts a Complete Local Name AD structure in front.

The AD framing is that of the Bluetooth Core Specification, Vol 3 Part C
section 11. The AD types are from the Core Specification Supplement, Part A
sections 1.2 and 1.11.

Files:
- `wrappers.dfy`: `Option`.
- `bthome_types.dfy`: bytes, `uint64_t`, the `DataType` enumeration with its
  object ids, and `ServiceDataItem`.
- `item_order.dfy`: the comparator `serviceDataItemCompareFn` and sortedness.
- `service_data.dfy`: the emitted bytes as functions of the stored items. It
  also holds a receiver's reading of those bytes: AD-structure splitting, and
  BTHome object decoding with the receiver's own object table (packet id and
  battery uint8, temperature sint16, humidity uint16, pressure uint24),
  written apart from the serialiser's widths. Then come the round trips
  between the two, the proof that a tag-only entry desynchronises the
  receiver, and the byte vectors from the header's doc comments.
- `payload_builder.dfy`: the `PayloadBuilder` class. Its array field and
  `uint8_t` count are updated in place. It also has the in-place sort and
  the serialisation loop, plus two client cycles.

The model keeps the code's behaviour as written, including where it departs
from what a BTHome encoder might be expected to do:
- The sort is `std::sort`, which is not stable. Only sortedness and
  permutation are promised; equal tags may end up in any order.
- `getServiceData` changes the builder: it sorts the stored items in place.
- A kind without a `case` in the serialiser's `switch` (`packetId`,
  `battery`) gets a tag byte and no value bytes. There is no error path. A
  BTHome receiver expects one value byte after either tag, so it reads the
  next byte as that value. The objects after such an entry are shifted: they
  either fail to parse or come back under ids other than the stored kinds. A
  second tag-only entry can shift them back into step. The public `add…` wrappers never store
  these kinds; only `addServiceDataItem` can.
- The wrappers truncate a `float` toward zero; they do not round.
- Pressure 1008.83 hPa (100883 = `0x018A13`) is sent as `04 13 8A 01`, as
  the header's doc comment says.

## Model

| member | source | states |
|---|---|---|
| BTHomeTypes.ObjectId | lib/BTHome/BTHome.h:8-33 | each enumerator's underlying `uint8_t`, the object id sent on the wire, is at most 0x04 |
| BTHomeTypes.DataTypeOf | lib/BTHome/BTHome.h:8-33 | the inverse of `ObjectId`: a byte names an enumerator exactly when it is 0x00..0x04, and that enumerator's object id is the byte |
| BTHomeTypes.DataTypeOfObjectId | lib/BTHome/BTHome.h:8-33 | reading back any enumerator's object id gives that enumerator (packetId 0, battery 1, temperature 2, humidity 3, pressure 4) |
| BTHomeTypes.ObjectIdInjective | lib/BTHome/BTHome.h:8-33 | two enumerators share an object id only if they are the same |
| ItemOrder.ComesBefore | lib/BTHome/BTHome.cpp:4-7 | `serviceDataItemCompareFn`: compares object ids only, so an item is never ordered before one of its own kind |
| ItemOrder.ComesBeforeIsStrictWeakOrder | lib/BTHome/BTHome.cpp:4-7 | the comparator is irreflexive and transitive, and two items are equivalent under it exactly when they have the same kind |
| ItemOrder.SortedArrangementUnique | lib/BTHome/BTHome.cpp:74 | when no kind repeats, two sorted rearrangements of the same items are equal, so insertion order and sort instability do not affect the result |
| ServiceData.ValueWidth | lib/BTHome/BTHome.cpp:81-95 | the value bytes the `switch` writes: at most 3, and none exactly for `packetId` and `battery`, which have no `case` |
| ServiceData.ByteOf | lib/BTHome/BTHome.cpp:85-92 | `(value >> 8k) & 0xFF`: byte 0 is the value mod 256, and a byte beyond the value's size is 0 |
| ServiceData.LittleEndianByteOf | lib/BTHome/BTHome.cpp:83-94 | byte k of the little-endian encoding is `(value >> 8k) & 0xFF` |
| ServiceData.LittleEndianRoundTrip | lib/BTHome/BTHome.cpp:83-94 | decoding the emitted value bytes gives the value modulo 2^16 or 2^24 |
| ServiceData.ItemsBytesLength | lib/BTHome/BTHome.cpp:76-96 | the summed length `Σ(1 + width)` is the number of object bytes emitted |
| ServiceData.EncodeServiceData | lib/BTHome/BTHome.cpp:57-100 | the service data is 5 + Σ(1 + width) bytes; its first byte is the count of the bytes after it, mod 256; then `16 D2 FC 40`; then the objects |
| ServiceData.NameAdStructure | lib/BTHome/BTHome.cpp:29-34 | the name structure is `(len+1) mod 256`, `0x09`, the name bytes, and no terminator |
| ServiceData.AdvertisingPayload | lib/BTHome/BTHome.cpp:29-37 | what `getAdvertisingPayload` returns: the name structure, then the service data, 7 + name length + Σ(1 + width) bytes in all |
| ServiceData.MeasurementReadsBack | lib/BTHome/BTHome.cpp:81-95 | for temperature, humidity and pressure, the receiver's object table agrees with the `switch` on tag and width, and the emitted bytes read as the intended value (temperature as sint16) |
| ServiceData.ObjectsRoundTrip | lib/BTHome/BTHome.cpp:77-96 | a receiver with its own object table reads the object bytes of measurement items back as every item, in order, as BTHome intends it: temperature mod 2^16 as sint16, humidity mod 2^16, pressure mod 2^24 |
| ServiceData.ServiceDataRoundTrip | lib/BTHome/BTHome.cpp:57-100 | for measurement items, the service data reads back as one AD structure exactly when 4 + Σ(1 + width) < 256; then it yields every item in storage order |
| ServiceData.ServiceDataOverflows | lib/BTHome/BTHome.cpp:76-97 | when the `uint8_t` length wraps, whatever the items, the bytes are not one Service Data structure spanning all of them |
| ServiceData.AdvertisingPayloadRoundTrip | lib/BTHome/BTHome.cpp:29-37 | for measurement items, the advertising payload reads back as the device name followed by the items |
| ServiceData.EmittedIdsAscending | lib/BTHome/BTHome.cpp:69-79 | from sorted storage of measurement items, the object ids a receiver meets never decrease |
| ServiceData.TagOnlyDesynchronises | lib/BTHome/BTHome.cpp:81-95 | when any stored item is a packet id or battery, written as a bare tag, a receiver never reads back the stored kinds: it fails, or the ids it reads differ |
| ServiceData.TagOnlyExample | lib/BTHome/BTHome.cpp:81-95 | battery then temperature 2500 is sent as `01 02 C4 09`, which a receiver cannot read |
| ServiceData.TagOnlyResync | lib/BTHome/BTHome.cpp:81-95 | packet id 0, battery 0, temperature 2500 is sent as `00 01 02 C4 09`; a receiver reads a packet id of 1 and the temperature 2500, losing the battery |
| ServiceData.EmptyServiceData | lib/BTHome/BTHome.cpp:57-100 | with no items the service data is `04 16 D2 FC 40` |
| ServiceData.TemperatureVector | lib/BTHome/BTHome.h:13-18 | temperature 2506 encodes as `02 CA 09`, which a receiver reads as the sint16 2506 |
| ServiceData.HumidityVector | lib/BTHome/BTHome.h:20-25 | humidity 5055 encodes as `03 BF 13`, which decodes back to 5055 |
| ServiceData.PressureVector | lib/BTHome/BTHome.h:27-32 | pressure 100883 encodes as the uint24 `04 13 8A 01`, which decodes back to 100883 |
| ServiceData.NameVector | lib/BTHome/BTHome.cpp:29-37 | the name "HON" gives `04 09 48 4F 4E` |
| ServiceData.WorkedExample | lib/BTHome/BTHome.cpp:57-100 | any sorted arrangement of temperature 2500 and humidity 5055 serialises to `0A 16 D2 FC 40 02 C4 09 03 BF 13` |
| Builder.PayloadBuilder.constructor | lib/BTHome/BTHome.h:45-56 | a new builder holds the given name and zero items; the name is a `const` field, so no method can change it |
| Builder.PayloadBuilder.ResetServiceData | lib/BTHome/BTHome.cpp:39-43 | afterwards the item count is 0 |
| Builder.PayloadBuilder.AddServiceDataItem | lib/BTHome/BTHome.cpp:45-55 | the items become the old items, unchanged and in order, plus `(dataType, value)` at the end, held in a newly allocated array |
| Builder.PayloadBuilder.AddTemperature | lib/BTHome/BTHome.cpp:14-17 | appends a temperature item with the given scaled value |
| Builder.PayloadBuilder.AddHumidity | lib/BTHome/BTHome.cpp:19-22 | appends a humidity item with the given scaled value |
| Builder.PayloadBuilder.AddPressure | lib/BTHome/BTHome.cpp:24-27 | appends a pressure item with the given scaled value |
| Builder.PayloadBuilder.GetServiceData | lib/BTHome/BTHome.cpp:57-100 | the stored items become a permutation of the old ones, sorted by object id, and the result is their service-data encoding |
| Builder.PayloadBuilder.GetAdvertisingPayload | lib/BTHome/BTHome.cpp:29-37 | same effect on storage; the result is the name structure followed by the service data of the sorted items |
| Builder.WriteServiceData | lib/BTHome/BTHome.cpp:59-99 | the serialisation loop, with its header appends and `uint8_t` length sum, produces exactly the service-data encoding of the first n stored items |
| Builder.AppendItem | lib/BTHome/BTHome.cpp:79-95 | one pass of the loop appends the item's tag and little-endian value bytes and adds 1 + width to the length, mod 256 |
| Builder.SortByObjectId | lib/BTHome/BTHome.cpp:74 | the first n items become sorted by object id and a permutation of what they were; the rest of the array is untouched |
| Builder.InsertOne | lib/BTHome/BTHome.cpp:74 | one insertion pass makes `a[..i + 1]` sorted and a rearrangement of what it was, and leaves everything after it as it was |
| Builder.ExampleCycle | src/main.cpp:44-47 | the worked example of the hex walkthrough, built through the class: reset, add temperature 2500 and humidity 5055 in either order, then build, gives `0A 16 D2 FC 40 02 C4 09 03 BF 13` |
| Builder.EmptyCycle | lib/BTHome/BTHome.cpp:39-43 | after a reset, even with stale items before it, the advertising payload is the name structure followed by `04 16 D2 FC 40` |

## Left out

- Float scaling in `addTemperature`, `addHumidity` and `addPressure`
  (`static_cast<uint64_t>(data * 100.0f)`) is not modelled. The wrappers take
  the already-scaled `uint64_t`. Floating point is out of scope, and a
  negative reading is undefined behaviour in the cast.
- Builder.PayloadBuilder.ResetServiceData: does not model `delete[]`. The
  array is kept and only the count drops to 0. The source leaves a dangling
  pointer, so a second reset is a double delete; the model does not capture
  that.
- Builder.PayloadBuilder.AddServiceDataItem: does not model that the old
  array is never freed. It requires fewer than 255 items, because at 255 the
  `uint8_t` count wraps to 0 and the source writes out of bounds.
- Builder.SortByObjectId: an insertion sort stands for `std::sort`. It has the
  same contract: sorted by the comparator and a permutation. Like the
  library, it promises nothing about the order of equal tags.
- ServiceData.ObjectsRoundTrip, ServiceData.ServiceDataRoundTrip,
  ServiceData.AdvertisingPayloadRoundTrip, ServiceData.EmittedIdsAscending:
  stated for measurement items only (temperature, humidity, pressure). For
  the other kinds the serialiser writes no value bytes, so no round trip
  holds; ServiceData.TagOnlyDesynchronises proves that instead.
- Temperature is a signed 16-bit value in BTHome. The builder only ever holds
  `uint64_t` values and writes them modulo 2^16. Negative temperatures
  cannot reach it except through the undefined cast above.
- `char` signedness: every byte is modelled as an unsigned value 0..255. The
  source's `(char)` casts and `std::string` appends keep the same eight bits.
- The legacy 31-byte advertising limit and the flags AD structure are not
  handled by this code, so they are not modelled.
- src/main.cpp (NimBLE advertising, deep sleep, serial output, delays) is not
  part of this model. Its hand-built bytes are used only as reference vectors.
- lib/bme680/Bme680.cpp and lib/bme680/Bme680.h (the BSEC sensor driver,
  EEPROM persistence, timing) are not part of this model.
