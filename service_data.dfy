/**
 * The bytes `getServiceData` and `getAdvertisingPayload` of
 * lib/BTHome/BTHome.cpp produce, as functions of the stored items, and a
 * receiver's reading of those bytes: the advertising-data framing of the
 * Bluetooth Core Specification, Vol 3 Part C section 11, and BTHome v2
 * objects read with the object table's own sizes and signedness. The
 * measurements round-trip; a tag-only entry throws the receiver off.
 */
module ServiceData {
  import opened Wrappers
  import opened BTHomeTypes
  import opened ItemOrder

  /** AD type "Service Data - 16-bit UUID" (Core Specification Supplement, Part A section 1.11). */
  const SERVICE_DATA_AD_TYPE: Byte := 0x16
  /** AD type "Complete Local Name" (Core Specification Supplement, Part A section 1.2). */
  const COMPLETE_LOCAL_NAME_AD_TYPE: Byte := 0x09
  /** The 16-bit service UUID registered for BTHome. */
  const BTHOME_UUID: int := 0xFCD2
  /** BTHome device information: not encrypted, BTHome version 2. */
  const DEVICE_INFO: Byte := 0x40

  /** What follows the length byte before any object: AD type, UUID low byte first, device information. */
  const HEADER: seq<Byte> := [SERVICE_DATA_AD_TYPE, BTHOME_UUID % 256, BTHOME_UUID / 256, DEVICE_INFO]

  /** Number of value bytes the serialiser's `switch` writes after a tag; kinds it has no case for get none. */
  function ValueWidth(t: DataType): (w: nat)
    ensures w <= 3
    ensures w == 0 <==> t == PacketId || t == Battery
  {
    match t
    case Temperature | Humidity => 2
    case Pressure => 3
    case PacketId | Battery => 0
  }

  function Pow256(n: nat): (p: nat)
    ensures p > 0
  {
    if n == 0 then 1 else 256 * Pow256(n - 1)
  }

  /** `(v >> 8 * k) & 0xFF` for an unsigned `v`: byte `k` of `v`, counting from the least significant. */
  function ByteOf(v: nat, k: nat): (b: Byte)
    ensures k == 0 ==> b == v % 256
    ensures v < Pow256(k) ==> b == 0
  {
    SmallQuotient(v, Pow256(k));
    (v / Pow256(k)) % 256
  }

  /** A value smaller than the divisor shifts out to nothing. */
  lemma SmallQuotient(v: nat, d: nat)
    requires d > 0
    ensures v < d ==> v / d == 0
  {
    if v < d {
      DivModUnique(v, d, 0, v);
    }
  }

  /** The `width` least significant bytes of `v`, least significant first. */
  function LittleEndian(v: nat, width: nat): (r: seq<Byte>)
    ensures |r| == width
  {
    if width == 0 then [] else [v % 256] + LittleEndian(v / 256, width - 1)
  }

  /** A receiver's reading of a little-endian unsigned integer. */
  function FromLittleEndian(bytes: seq<Byte>): (v: nat)
    ensures v < Pow256(|bytes|)
  {
    if bytes == [] then 0 else bytes[0] + 256 * FromLittleEndian(bytes[1..])
  }

  /** Byte `k` of the little-endian encoding is exactly the shifted-and-masked byte the serialiser writes. */
  lemma {:induction false} LittleEndianByteOf(v: nat, width: nat, k: nat)
    requires k < width
    ensures LittleEndian(v, width)[k] == ByteOf(v, k)
  {
    if k > 0 {
      LittleEndianByteOf(v / 256, width - 1, k - 1);
      DivDiv(v, 256, Pow256(k - 1));
    }
  }

  /** Decoding the `width` emitted bytes gives back the value modulo `256^width`. */
  lemma {:induction false} LittleEndianRoundTrip(v: nat, width: nat)
    ensures FromLittleEndian(LittleEndian(v, width)) == v % Pow256(width)
  {
    if width > 0 {
      var bytes := LittleEndian(v, width);
      assert bytes[0] == v % 256 && bytes[1..] == LittleEndian(v / 256, width - 1);
      LittleEndianRoundTrip(v / 256, width - 1);
      ModSplit(v, Pow256(width - 1));
    }
  }

  /** The low byte plus 256 times the rest, cut to `p`, is the value cut to `256 * p`. */
  lemma ModSplit(v: nat, p: nat)
    requires p > 0
    ensures v % 256 + 256 * ((v / 256) % p) == v % (256 * p)
  {
    var q := v / 256;
    var r := v % 256;
    var hi := q / p;
    var lo := q % p;
    assert q == p * hi + lo;
    assert v == 256 * q + r;
    assert v == 256 * (p * hi) + (256 * lo + r);
    assert 256 * (p * hi) == (256 * p) * hi;
    assert 256 * lo + r < 256 * p;
    DivModUnique(v, 256 * p, hi, 256 * lo + r);
  }

  /** Division and remainder are determined by the equation they satisfy. */
  lemma DivModUnique(v: int, d: int, q: int, r: int)
    requires d > 0 && 0 <= r < d && v == d * q + r
    ensures v / d == q && v % d == r
  {
    var q', r' := v / d, v % d;
    if q' > q {
      MulStep(d, q' - q);
    } else if q' < q {
      MulStep(d, q - q');
    }
  }

  /** A positive multiple of `d` is at least `d`. */
  lemma MulStep(d: int, k: int)
    requires d > 0 && k >= 1
    ensures d * k >= d
  {
    if k > 1 {
      MulStep(d, k - 1);
      assert d * k == d * (k - 1) + d;
    }
  }

  /** Shifting by `a` then by `b` is shifting by `a * b`. */
  lemma DivDiv(v: nat, a: nat, b: nat)
    requires a > 0 && b > 0
    ensures (v / a) / b == v / (a * b)
  {
    var q, r := v / a, v % a;
    var hi, lo := q / b, q % b;
    assert v == a * q + r;
    assert q == b * hi + lo;
    MulSplit(a, b, hi, lo);
    assert v == (a * b) * hi + (a * lo + r);
    DivModUnique(v, a * b, hi, a * lo + r);
  }

  /** `a` times a quotient-and-remainder split of `q` by `b` is a split of `a * q` by `a * b`. */
  lemma MulSplit(a: nat, b: nat, hi: nat, lo: nat)
    requires a > 0 && lo < b
    ensures a * (b * hi + lo) == (a * b) * hi + a * lo
    ensures a * lo + a <= a * b
  {
    assert a * (b - lo) >= a by {
      MulStep(a, b - lo);
    }
  }

  /** The tag byte and value bytes of one item. */
  function ItemBytes(item: ServiceDataItem): seq<Byte>
  {
    [ObjectId(item.dataType)] + LittleEndian(item.dataValue, ValueWidth(item.dataType))
  }

  /** The objects of a service-data payload, in storage order. */
  function ItemsBytes(items: seq<ServiceDataItem>): seq<Byte>
  {
    if items == [] then [] else ItemBytes(items[0]) + ItemsBytes(items[1..])
  }

  /** The serialiser's running count of object bytes: a tag byte plus the value width, per item. */
  function ItemsLength(items: seq<ServiceDataItem>): nat
  {
    if items == [] then 0 else 1 + ValueWidth(items[0].dataType) + ItemsLength(items[1..])
  }

  /** The counted length is the number of object bytes emitted. */
  lemma {:induction false} ItemsBytesLength(items: seq<ServiceDataItem>)
    ensures |ItemsBytes(items)| == ItemsLength(items)
  {
    if items != [] {
      ItemsBytesLength(items[1..]);
    }
  }

  /** Serialising one more item appends its bytes. */
  lemma {:induction false} ItemsBytesAppend(items: seq<ServiceDataItem>, item: ServiceDataItem)
    ensures ItemsBytes(items + [item]) == ItemsBytes(items) + ItemBytes(item)
  {
    if items == [] {
      assert [item][1..] == [];
    } else {
      assert (items + [item])[1..] == items[1..] + [item];
      ItemsBytesAppend(items[1..], item);
    }
  }

  /** Counting one more item adds its tag byte and its value width. */
  lemma {:induction false} ItemsLengthAppend(items: seq<ServiceDataItem>, item: ServiceDataItem)
    ensures ItemsLength(items + [item]) == ItemsLength(items) + 1 + ValueWidth(item.dataType)
  {
    if items == [] {
      assert [item][1..] == [];
    } else {
      assert (items + [item])[1..] == items[1..] + [item];
      ItemsLengthAppend(items[1..], item);
    }
  }

  /**
   * The Service Data AD structure `getServiceData` returns for `items` in the
   * order they are stored: the length byte, computed as a `uint8_t` running
   * sum starting at 4, then the header and the objects.
   */
  function EncodeServiceData(items: seq<ServiceDataItem>): (r: seq<Byte>)
    ensures |r| == 5 + ItemsLength(items)
    ensures r[0] == (|r| - 1) % 256
    ensures r[1..5] == HEADER && r[5..] == ItemsBytes(items)
  {
    ItemsBytesLength(items);
    [(4 + ItemsLength(items)) % 256] + HEADER + ItemsBytes(items)
  }

  /** The Complete Local Name AD structure: `(char)length + 1`, the AD type, the name's bytes, no terminator. */
  function NameAdStructure(name: seq<Byte>): (r: seq<Byte>)
    ensures |r| == |name| + 2
    ensures r[0] == (|r| - 1) % 256 && r[1] == COMPLETE_LOCAL_NAME_AD_TYPE && r[2..] == name
  {
    [(|name| + 1) % 256, COMPLETE_LOCAL_NAME_AD_TYPE] + name
  }

  /** What `getAdvertisingPayload` returns for the device name and the items in storage order. */
  function AdvertisingPayload(name: seq<Byte>, items: seq<ServiceDataItem>): (r: seq<Byte>)
    ensures |r| == |name| + 7 + ItemsLength(items)
    ensures r[..|name| + 2] == NameAdStructure(name) && r[|name| + 2..] == EncodeServiceData(items)
  {
    NameAdStructure(name) + EncodeServiceData(items)
  }

  // ---------------------------------------------------------------------
  // A receiver's view of the bytes

  /** One advertising-data structure: its AD type and the data after it. */
  datatype AdStructure = AdStructure(adType: Byte, data: seq<Byte>)

  /**
   * Splits the first AD structure off advertising data: a length byte `L`
   * that must be non-zero, then `L` bytes made of the AD type and the data.
   * Also returns the bytes after it.
   */
  function ParseAdStructure(bytes: seq<Byte>): (r: Option<(AdStructure, seq<Byte>)>)
    ensures r.Some? ==> bytes == [|r.value.0.data| + 1, r.value.0.adType] + r.value.0.data + r.value.1
  {
    if |bytes| < 2 then None
    else
      var length: int := bytes[0];
      if length == 0 || |bytes| < 1 + length then None
      else
        var ad := AdStructure(bytes[1], bytes[2..1 + length]);
        assert bytes == bytes[..2] + bytes[2..1 + length] + bytes[1 + length..];
        Some((ad, bytes[1 + length..]))
  }

  /** How a BTHome v2 receiver reads an object's value: its size in bytes and whether it is two's complement. */
  datatype ObjectFormat = ObjectFormat(width: nat, signed: bool)

  /**
   * The BTHome v2 object table for the ids the firmware declares: packet id
   * uint8, battery uint8, temperature sint16, humidity uint16, pressure
   * uint24. It is the receiver's own table, not the serialiser's `switch`.
   */
  function Format(id: Byte): (f: Option<ObjectFormat>)
    ensures f.Some? <==> id <= 0x04
    ensures f.Some? ==> 1 <= f.value.width <= 3
  {
    if id == 0x00 || id == 0x01 then Some(ObjectFormat(1, false))
    else if id == 0x02 then Some(ObjectFormat(2, true))
    else if id == 0x03 then Some(ObjectFormat(2, false))
    else if id == 0x04 then Some(ObjectFormat(3, false))
    else None
  }

  /** One object as a receiver reads it: its id and its value, negative for a signed object. */
  datatype Reading = Reading(objectId: Byte, value: int)

  /** A little-endian value read unsigned, or as two's complement when `signed`. */
  function Interpret(bytes: seq<Byte>, signed: bool): int
  {
    var u := FromLittleEndian(bytes);
    if signed && 2 * u >= Pow256(|bytes|) then u - Pow256(|bytes|) else u
  }

  /** Reads BTHome objects: each a known object id followed by as many value bytes as its format says. */
  function ParseObjects(bytes: seq<Byte>): Option<seq<Reading>>
    decreases |bytes|
  {
    if bytes == [] then Some([])
    else match Format(bytes[0])
      case None => None
      case Some(format) =>
        if |bytes| < 1 + format.width then None
        else match ParseObjects(bytes[1 + format.width..])
          case None => None
          case Some(rest) => Some([Reading(bytes[0], Interpret(bytes[1..1 + format.width], format.signed))] + rest)
  }

  /** Reads a whole Service Data AD structure carrying BTHome v2 data, or nothing if the bytes are not one. */
  function ParseServiceData(bytes: seq<Byte>): Option<seq<Reading>>
  {
    match ParseAdStructure(bytes)
    case None => None
    case Some((ad, rest)) =>
      if rest != [] || ad.adType != SERVICE_DATA_AD_TYPE || |ad.data| < 3 || ad.data[..3] != HEADER[1..] then None
      else ParseObjects(ad.data[3..])
  }

  /** Reads a Complete Local Name AD structure followed by a BTHome Service Data AD structure. */
  function ParseAdvertisingPayload(bytes: seq<Byte>): Option<(seq<Byte>, seq<Reading>)>
  {
    match ParseAdStructure(bytes)
    case None => None
    case Some((ad, rest)) =>
      if ad.adType != COMPLETE_LOCAL_NAME_AD_TYPE then None
      else match ParseServiceData(rest)
        case None => None
        case Some(readings) => Some((ad.data, readings))
  }

  /** The 16-bit pattern `u` read as a signed `int16_t`. */
  function Sint16(u: nat): int
    requires u < 0x1_0000
  {
    if u < 0x8000 then u else u - 0x1_0000
  }

  /**
   * What BTHome v2 means an item to be read as: its object id and its value
   * cut to the object's size, temperature as sint16, humidity as uint16,
   * pressure as uint24, packet id and battery as uint8.
   */
  function Intended(item: ServiceDataItem): Reading
  {
    var v := item.dataValue;
    match item.dataType
    case PacketId => Reading(0x00, v % 0x100)
    case Battery => Reading(0x01, v % 0x100)
    case Temperature => Reading(0x02, Sint16(v % 0x1_0000))
    case Humidity => Reading(0x03, v % 0x1_0000)
    case Pressure => Reading(0x04, v % 0x100_0000)
  }

  function AllIntended(items: seq<ServiceDataItem>): seq<Reading>
  {
    if items == [] then [] else [Intended(items[0])] + AllIntended(items[1..])
  }

  /** The kinds the `add…` wrappers store; the serialiser writes a value only for these. */
  predicate IsMeasurement(t: DataType)
  {
    t == Temperature || t == Humidity || t == Pressure
  }

  predicate AllMeasurements(items: seq<ServiceDataItem>)
  {
    forall i :: 0 <= i < |items| ==> IsMeasurement(items[i].dataType)
  }

  // ---------------------------------------------------------------------
  // Round trips

  /**
   * For a measurement, the receiver's table agrees with the serialiser's tag
   * and width, and the emitted bytes read as the value BTHome intends.
   */
  lemma MeasurementReadsBack(item: ServiceDataItem)
    requires IsMeasurement(item.dataType)
    ensures Format(ObjectId(item.dataType)).Some?
    ensures Format(ObjectId(item.dataType)).value.width == ValueWidth(item.dataType)
    ensures Reading(ObjectId(item.dataType),
                    Interpret(LittleEndian(item.dataValue, ValueWidth(item.dataType)), Format(ObjectId(item.dataType)).value.signed))
         == Intended(item)
  {
    LittleEndianRoundTrip(item.dataValue, ValueWidth(item.dataType));
    assert Pow256(2) == 0x1_0000;
    assert Pow256(3) == 0x100_0000;
  }

  /** Reading the emitted measurements gives back every item, in order, as BTHome intends it. */
  lemma {:induction false} ObjectsRoundTrip(items: seq<ServiceDataItem>)
    requires AllMeasurements(items)
    ensures ParseObjects(ItemsBytes(items)) == Some(AllIntended(items))
  {
    if items != [] {
      var item := items[0];
      var w := ValueWidth(item.dataType);
      var bytes := ItemsBytes(items);
      assert bytes == [ObjectId(item.dataType)] + LittleEndian(item.dataValue, w) + ItemsBytes(items[1..]);
      MeasurementReadsBack(item);
      assert bytes[1..1 + w] == LittleEndian(item.dataValue, w);
      assert bytes[1 + w..] == ItemsBytes(items[1..]);
      assert AllMeasurements(items[1..]) by {
        forall i | 0 <= i < |items[1..]|
          ensures IsMeasurement(items[1..][i].dataType)
        {
          assert items[1..][i] == items[i + 1];
        }
      }
      ObjectsRoundTrip(items[1..]);
    }
  }

  /**
   * A receiver reads the service data back exactly when its length fits the
   * `uint8_t` length byte; it then gets every item, in storage order, with
   * temperature as sint16, humidity as uint16 and pressure as uint24.
   */
  lemma ServiceDataRoundTrip(items: seq<ServiceDataItem>)
    requires AllMeasurements(items)
    ensures ParseServiceData(EncodeServiceData(items)).Some? <==> 4 + ItemsLength(items) < 256
    ensures 4 + ItemsLength(items) < 256 ==> ParseServiceData(EncodeServiceData(items)) == Some(AllIntended(items))
  {
    if 4 + ItemsLength(items) < 256 {
      ServiceDataFits(items);
    } else {
      ServiceDataOverflows(items);
    }
  }

  lemma ServiceDataFits(items: seq<ServiceDataItem>)
    requires AllMeasurements(items) && 4 + ItemsLength(items) < 256
    ensures ParseServiceData(EncodeServiceData(items)) == Some(AllIntended(items))
  {
    var ad := AdStructure(SERVICE_DATA_AD_TYPE, HEADER[1..] + ItemsBytes(items));
    ServiceDataFraming(items);
    assert ad.data[..3] == HEADER[1..] && ad.data[3..] == ItemsBytes(items);
    ObjectsRoundTrip(items);
  }

  /** When the length fits, the service data is exactly one AD structure of type `0x16`. */
  lemma ServiceDataFraming(items: seq<ServiceDataItem>)
    requires 4 + ItemsLength(items) < 256
    ensures ParseAdStructure(EncodeServiceData(items))
         == Some((AdStructure(SERVICE_DATA_AD_TYPE, HEADER[1..] + ItemsBytes(items)), []))
  {
    var data := HEADER[1..] + ItemsBytes(items);
    EncodedFrame(items);
    assert [|data| + 1, SERVICE_DATA_AD_TYPE] + data + [] == [|data| + 1, SERVICE_DATA_AD_TYPE] + data;
    ParseAdStructureOf(SERVICE_DATA_AD_TYPE, data, []);
  }

  /** When the length fits, its byte counts the AD type, the UUID, the device information and the objects. */
  lemma EncodedFrame(items: seq<ServiceDataItem>)
    requires 4 + ItemsLength(items) < 256
    ensures EncodeServiceData(items) == [4 + ItemsLength(items), SERVICE_DATA_AD_TYPE] + (HEADER[1..] + ItemsBytes(items))
    ensures |HEADER[1..] + ItemsBytes(items)| + 1 == 4 + ItemsLength(items)
  {
    var bytes := EncodeServiceData(items);
    ItemsBytesLength(items);
    assert bytes == [bytes[0]] + bytes[1..5] + bytes[5..];
  }

  /** Splitting a length byte, an AD type and that many data bytes off gives them back, and the rest. */
  lemma ParseAdStructureOf(adType: Byte, data: seq<Byte>, rest: seq<Byte>)
    requires |data| < 255
    ensures ParseAdStructure([|data| + 1, adType] + data + rest) == Some((AdStructure(adType, data), rest))
  {
    var bytes := [|data| + 1, adType] + data + rest;
    assert bytes[2..2 + |data|] == data && bytes[2 + |data|..] == rest;
  }

  /**
   * When the objects take more than 251 bytes the length byte wraps, and the
   * bytes are not one Service Data structure spanning all of them.
   */
  lemma ServiceDataOverflows(items: seq<ServiceDataItem>)
    requires 4 + ItemsLength(items) >= 256
    ensures ParseServiceData(EncodeServiceData(items)) == None
  {
  }

  /**
   * The advertising payload reads back as the device name followed by the
   * items, provided both length bytes fit; the name carries no terminator.
   */
  lemma AdvertisingPayloadRoundTrip(name: seq<Byte>, items: seq<ServiceDataItem>)
    requires |name| < 255 && AllMeasurements(items) && 4 + ItemsLength(items) < 256
    ensures ParseAdvertisingPayload(AdvertisingPayload(name, items)) == Some((name, AllIntended(items)))
  {
    var bytes := AdvertisingPayload(name, items);
    var ad := AdStructure(COMPLETE_LOCAL_NAME_AD_TYPE, name);
    assert bytes == [|ad.data| + 1, ad.adType] + ad.data + EncodeServiceData(items);
    ParseAdStructureOf(ad.adType, ad.data, EncodeServiceData(items));
    ServiceDataRoundTrip(items);
  }

  /**
   * Whatever order the items were added in, once storage is sorted the object
   * ids a receiver meets in the service data never decrease.
   */
  lemma EmittedIdsAscending(items: seq<ServiceDataItem>)
    requires AllMeasurements(items) && SortedByObjectId(items) && 4 + ItemsLength(items) < 256
    ensures ParseServiceData(EncodeServiceData(items)).Some?
    ensures var readings := ParseServiceData(EncodeServiceData(items)).value;
      forall i, j :: 0 <= i < j < |readings| ==> readings[i].objectId <= readings[j].objectId
  {
    ServiceDataRoundTrip(items);
    AllIntendedIds(items);
  }

  /** The intended readings carry the items' object ids, one per item. */
  lemma {:induction false} AllIntendedIds(items: seq<ServiceDataItem>)
    ensures |AllIntended(items)| == |items|
    ensures forall i :: 0 <= i < |items| ==> AllIntended(items)[i].objectId == ObjectId(items[i].dataType)
  {
    if items != [] {
      AllIntendedIds(items[1..]);
    }
  }

  // ---------------------------------------------------------------------
  // Tag-only entries

  /** The value bytes a receiver takes after the tag `id`. */
  function ReadWidth(id: Byte): nat
  {
    match Format(id)
    case None => 0
    case Some(f) => f.width
  }

  /** The number of bytes a receiver consumed to produce `readings`. */
  function ReadLength(readings: seq<Reading>): nat
  {
    if readings == [] then 0 else 1 + ReadWidth(readings[0].objectId) + ReadLength(readings[1..])
  }

  /** The readings carry the items' object ids, one per item. */
  predicate IdsMatch(items: seq<ServiceDataItem>, readings: seq<Reading>)
  {
    |readings| == |items| && forall i :: 0 <= i < |items| ==> readings[i].objectId == ObjectId(items[i].dataType)
  }

  /** A successful read consumes every byte. */
  lemma {:induction false} ParsedLength(bytes: seq<Byte>)
    ensures ParseObjects(bytes).Some? ==> |bytes| == ReadLength(ParseObjects(bytes).value)
    decreases |bytes|
  {
    if bytes != [] && ParseObjects(bytes).Some? {
      var w := Format(bytes[0]).value.width;
      ParsedLength(bytes[1 + w..]);
      assert ParseObjects(bytes).value[1..] == ParseObjects(bytes[1 + w..]).value;
    }
  }

  /**
   * Reading the stored kinds takes at least the bytes the serialiser wrote
   * for them, and strictly more when one of them is written as a bare tag.
   */
  lemma {:induction false} ReadLengthCovers(items: seq<ServiceDataItem>, readings: seq<Reading>)
    ensures IdsMatch(items, readings) ==> ReadLength(readings) >= ItemsLength(items)
    ensures IdsMatch(items, readings) && !AllMeasurements(items) ==> ReadLength(readings) > ItemsLength(items)
  {
    if items != [] && IdsMatch(items, readings) {
      assert IdsMatch(items[1..], readings[1..]) by {
        forall i | 0 <= i < |items[1..]|
          ensures readings[1..][i].objectId == ObjectId(items[1..][i].dataType)
        {
          assert readings[1..][i] == readings[i + 1] && items[1..][i] == items[i + 1];
        }
      }
      ReadLengthCovers(items[1..], readings[1..]);
      if !AllMeasurements(items) && IsMeasurement(items[0].dataType) {
        var k :| 0 <= k < |items| && !IsMeasurement(items[k].dataType);
        assert items[1..][k - 1] == items[k];
      }
    }
  }

  /**
   * A packet id or battery item, which the serialiser writes as a bare tag,
   * throws a receiver off: whatever it reads, the ids do not match the
   * stored kinds.
   */
  lemma TagOnlyDesynchronises(items: seq<ServiceDataItem>)
    requires !AllMeasurements(items)
    ensures ParseObjects(ItemsBytes(items)).Some? ==> !IdsMatch(items, ParseObjects(ItemsBytes(items)).value)
  {
    var bytes := ItemsBytes(items);
    ItemsBytesLength(items);
    ParsedLength(bytes);
    if ParseObjects(bytes).Some? {
      ReadLengthCovers(items, ParseObjects(bytes).value);
    }
  }

  /** Battery with no value bytes, then temperature 2500: `01 02 C4 09`, which a receiver cannot read. */
  lemma TagOnlyExample()
    ensures ItemsBytes([ServiceDataItem(Battery, 0), ServiceDataItem(Temperature, 2500)]) == [0x01, 0x02, 0xC4, 0x09]
    ensures ParseObjects([0x01, 0x02, 0xC4, 0x09]) == None
  {
    var items := [ServiceDataItem(Battery, 0), ServiceDataItem(Temperature, 2500)];
    assert items[1..] == [items[1]] && items[1..][1..] == [];
    var bytes: seq<Byte> := [0x01, 0x02, 0xC4, 0x09];
    assert bytes[2..] == [0xC4, 0x09];
  }

  /** Temperature 2500 on its own, `02 C4 09`, reads back as 2500. */
  lemma TemperatureReadsBack()
    ensures ParseObjects([0x02, 0xC4, 0x09]) == Some([Reading(0x02, 2500)])
  {
    var temperature := ServiceDataItem(Temperature, 2500);
    assert ItemsBytes([temperature]) == ItemBytes(temperature) && AllIntended([temperature]) == [Intended(temperature)];
    ObjectsRoundTrip([temperature]);
    assert ItemBytes(temperature) == [0x02, 0xC4, 0x09];
    assert Intended(temperature) == Reading(0x02, 2500);
  }

  /**
   * A second tag-only entry can put the receiver back in step: packet id 0,
   * battery 0 and temperature 2500 are sent as `00 01 02 C4 09`, read as a
   * packet id of 1 followed by the temperature, with the battery lost.
   */
  lemma TagOnlyResync()
    ensures ItemsBytes([ServiceDataItem(PacketId, 0), ServiceDataItem(Battery, 0), ServiceDataItem(Temperature, 2500)])
         == [0x00, 0x01, 0x02, 0xC4, 0x09]
    ensures ParseObjects([0x00, 0x01, 0x02, 0xC4, 0x09]) == Some([Reading(0x00, 0x01), Reading(0x02, 2500)])
  {
    var items := [ServiceDataItem(PacketId, 0), ServiceDataItem(Battery, 0), ServiceDataItem(Temperature, 2500)];
    assert items[1..] == [items[1], items[2]] && items[1..][1..] == [items[2]] && items[1..][1..][1..] == [];
    var bytes: seq<Byte> := [0x00, 0x01, 0x02, 0xC4, 0x09];
    assert bytes[1..2] == [0x01] && bytes[2..] == [0x02, 0xC4, 0x09];
    TemperatureReadsBack();
    assert Interpret(bytes[1..2], false) == 0x01;
    assert Format(bytes[0]) == Some(ObjectFormat(1, false));
    assert [Reading(0x00, 0x01)] + [Reading(0x02, 2500)] == [Reading(0x00, 0x01), Reading(0x02, 2500)];
  }

  // ---------------------------------------------------------------------
  // Vectors

  /** With no items, the service data is the bare header: `04 16 D2 FC 40`. */
  lemma EmptyServiceData()
    ensures EncodeServiceData([]) == [0x04, 0x16, 0xD2, 0xFC, 0x40]
  {
  }

  /** Temperature 2506 (25.06 degrees C at factor 0.01) is sent as `02 CA 09`, and reads back. */
  lemma TemperatureVector()
    ensures ItemBytes(ServiceDataItem(Temperature, 2506)) == [0x02, 0xCA, 0x09]
    ensures ParseObjects([0x02, 0xCA, 0x09]) == Some([Reading(0x02, 2506)])
  {
    var item := ServiceDataItem(Temperature, 2506);
    assert ItemsBytes([item]) == ItemBytes(item) && AllIntended([item]) == [Intended(item)];
    ObjectsRoundTrip([item]);
  }

  /** Humidity 5055 (50.55 % at factor 0.01) is sent as `03 BF 13`, and reads back. */
  lemma HumidityVector()
    ensures ItemBytes(ServiceDataItem(Humidity, 5055)) == [0x03, 0xBF, 0x13]
    ensures ParseObjects([0x03, 0xBF, 0x13]) == Some([Reading(0x03, 5055)])
  {
    var item := ServiceDataItem(Humidity, 5055);
    assert ItemsBytes([item]) == ItemBytes(item) && AllIntended([item]) == [Intended(item)];
    ObjectsRoundTrip([item]);
  }

  /** Pressure 100883 (1008.83 hPa at factor 0.01) is sent as the uint24 `04 13 8A 01`, and reads back. */
  lemma PressureVector()
    ensures ItemBytes(ServiceDataItem(Pressure, 100883)) == [0x04, 0x13, 0x8A, 0x01]
    ensures ParseObjects([0x04, 0x13, 0x8A, 0x01]) == Some([Reading(0x04, 100883)])
  {
    var item := ServiceDataItem(Pressure, 100883);
    assert LittleEndian(1, 1) == [0x01];
    assert LittleEndian(394, 2) == [0x8A] + LittleEndian(1, 1);
    assert LittleEndian(100883, 3) == [0x13] + LittleEndian(394, 2);
    assert ItemBytes(item) == [0x04, 0x13, 0x8A, 0x01];
    assert [item][1..] == [];
    assert ItemsBytes([item]) == ItemBytes(item);
    assert AllIntended([item]) == [Reading(0x04, 100883)];
    ObjectsRoundTrip([item]);
  }

  /** The device name "HON" is sent as `04 09 48 4F 4E`. */
  lemma NameVector()
    ensures NameAdStructure([0x48, 0x4F, 0x4E]) == [0x04, 0x09, 0x48, 0x4F, 0x4E]
  {
  }

  /**
   * Temperature 2500 and humidity 5055, in whichever order they were added,
   * once sorted give `0A 16 D2 FC 40 02 C4 09 03 BF 13`.
   */
  lemma WorkedExample(items: seq<ServiceDataItem>)
    requires multiset(items) == multiset{ServiceDataItem(Temperature, 2500), ServiceDataItem(Humidity, 5055)}
    requires SortedByObjectId(items)
    ensures EncodeServiceData(items) == [0x0A, 0x16, 0xD2, 0xFC, 0x40, 0x02, 0xC4, 0x09, 0x03, 0xBF, 0x13]
  {
    var expected := [ServiceDataItem(Temperature, 2500), ServiceDataItem(Humidity, 5055)];
    assert multiset(expected) == multiset(items);
    SortedArrangementUnique(expected, items);
    WorkedExampleBytes();
  }

  lemma WorkedExampleBytes()
    ensures EncodeServiceData([ServiceDataItem(Temperature, 2500), ServiceDataItem(Humidity, 5055)])
         == [0x0A, 0x16, 0xD2, 0xFC, 0x40, 0x02, 0xC4, 0x09, 0x03, 0xBF, 0x13]
  {
  }
}
