/**
 * `bthome::PayloadBuilder` of lib/BTHome/BTHome.h and lib/BTHome/BTHome.cpp:
 * a device name fixed at construction and a growable array of pending
 * items that the add operations extend, reset empties, and serialisation
 * sorts in place before writing the bytes.
 */
module Builder {
  import opened BTHomeTypes
  import opened ItemOrder
  import opened ServiceData

  /** The item count is a `uint8_t`; an add needs the incremented count to still fit. */
  const MAX_ITEMS: nat := 255

  class PayloadBuilder {
    /** Set by the constructor only. */
    const deviceName: seq<Byte>
    /** The pending items live in `serviceDataPayload[..serviceDataPayloadSize]`. */
    var serviceDataPayload: array<ServiceDataItem>
    var serviceDataPayloadSize: nat

    ghost predicate Valid()
      reads this
    {
      serviceDataPayloadSize <= serviceDataPayload.Length && serviceDataPayloadSize <= MAX_ITEMS
    }

    /** The pending items, in storage order. */
    ghost function Items(): seq<ServiceDataItem>
      reads this, serviceDataPayload
      requires Valid()
    {
      serviceDataPayload[..serviceDataPayloadSize]
    }

    /** A new builder holds the given name and no items. */
    constructor (deviceName: seq<Byte>)
      ensures Valid() && fresh(serviceDataPayload)
      ensures this.deviceName == deviceName && Items() == []
    {
      this.deviceName := deviceName;
      serviceDataPayload := new ServiceDataItem[0];
      serviceDataPayloadSize := 0;
    }

    /** `resetServiceData`: the count drops to zero (the array is released in the source, kept here). */
    method ResetServiceData()
      requires Valid()
      modifies this
      ensures Valid() && Items() == []
      ensures serviceDataPayload == old(serviceDataPayload)
    {
      serviceDataPayloadSize := 0;
    }

    /**
     * `addServiceDataItem`: copies the items into a new array one longer and
     * puts the new item last.
     */
    method AddServiceDataItem(dataType: DataType, dataValue: Uint64)
      requires Valid() && |Items()| < MAX_ITEMS
      modifies this
      ensures Valid() && fresh(serviceDataPayload)
      ensures Items() == old(Items()) + [ServiceDataItem(dataType, dataValue)]
    {
      var previous := serviceDataPayload;
      var grown := new ServiceDataItem[serviceDataPayloadSize + 1];
      var i := 0;
      while i < serviceDataPayloadSize
        invariant 0 <= i <= serviceDataPayloadSize
        invariant grown[..i] == previous[..i]
        modifies grown
      {
        grown[i] := previous[i];
        i := i + 1;
      }
      serviceDataPayload := grown;
      serviceDataPayloadSize := serviceDataPayloadSize + 1;
      serviceDataPayload[serviceDataPayloadSize - 1] := ServiceDataItem(dataType, dataValue);
      assert Items() == previous[..serviceDataPayloadSize - 1] + [ServiceDataItem(dataType, dataValue)];
    }

    /** `addTemperature`, from the value already scaled by 100. */
    method AddTemperature(scaled: Uint64)
      requires Valid() && |Items()| < MAX_ITEMS
      modifies this
      ensures Valid() && fresh(serviceDataPayload)
      ensures Items() == old(Items()) + [ServiceDataItem(Temperature, scaled)]
    {
      AddServiceDataItem(Temperature, scaled);
    }

    /** `addHumidity`, from the value already scaled by 100. */
    method AddHumidity(scaled: Uint64)
      requires Valid() && |Items()| < MAX_ITEMS
      modifies this
      ensures Valid() && fresh(serviceDataPayload)
      ensures Items() == old(Items()) + [ServiceDataItem(Humidity, scaled)]
    {
      AddServiceDataItem(Humidity, scaled);
    }

    /** `addPressure`, from the value already scaled by 100. */
    method AddPressure(scaled: Uint64)
      requires Valid() && |Items()| < MAX_ITEMS
      modifies this
      ensures Valid() && fresh(serviceDataPayload)
      ensures Items() == old(Items()) + [ServiceDataItem(Pressure, scaled)]
    {
      AddServiceDataItem(Pressure, scaled);
    }

    /**
     * `getServiceData`: sorts the stored items by object id in place, then
     * writes the header and each item's tag and value bytes while summing the
     * length in a `uint8_t`, and finally puts that length in front.
     */
    method GetServiceData() returns (serviceData: seq<Byte>)
      requires Valid()
      modifies serviceDataPayload
      ensures Valid()
      ensures multiset(Items()) == multiset(old(Items()))
      ensures SortedByObjectId(Items())
      ensures serviceData == EncodeServiceData(Items())
    {
      SortByObjectId(serviceDataPayload, serviceDataPayloadSize);
      serviceData := WriteServiceData(serviceDataPayload, serviceDataPayloadSize);
    }

    /** `getAdvertisingPayload`: the Complete Local Name structure, then the service data. */
    method GetAdvertisingPayload() returns (advertisingPayload: seq<Byte>)
      requires Valid()
      modifies serviceDataPayload
      ensures Valid()
      ensures multiset(Items()) == multiset(old(Items()))
      ensures SortedByObjectId(Items())
      ensures advertisingPayload == AdvertisingPayload(deviceName, Items())
    {
      advertisingPayload := [];
      advertisingPayload := advertisingPayload + [(|deviceName| % 256 + 1) % 256];
      advertisingPayload := advertisingPayload + [COMPLETE_LOCAL_NAME_AD_TYPE];
      advertisingPayload := advertisingPayload + deviceName;
      var serviceData := GetServiceData();
      advertisingPayload := advertisingPayload + serviceData;
    }
  }

  /**
   * The writing half of `getServiceData`, over the first `n` stored items in
   * their current order: the header, then each item's tag and value bytes
   * while the length is summed in a `uint8_t`, and finally that length in front.
   */
  method WriteServiceData(a: array<ServiceDataItem>, n: nat) returns (serviceData: seq<Byte>)
    requires n <= a.Length
    ensures serviceData == EncodeServiceData(a[..n])
  {
    var body: seq<Byte> := [];
    body := body + [SERVICE_DATA_AD_TYPE];
    body := body + [0xD2, 0xFC];
    body := body + [DEVICE_INFO];
    var size: Byte := 4;
    var i := 0;
    while i < n
      invariant 0 <= i <= n
      invariant body == HEADER + ItemsBytes(a[..i])
      invariant size == (4 + ItemsLength(a[..i])) % 256
    {
      assert a[..n][..i] == a[..i] && a[..n][..i + 1] == a[..i + 1];
      EmitStep(a[..n], i, size);
      body, size := AppendItem(body, size, a[i]);
      i := i + 1;
    }
    assert a[..i] == a[..n];
    serviceData := [size] + body;
  }

  /**
   * One pass of the serialiser's loop: the item's tag, then the value bytes
   * its kind has a `case` for, while the `uint8_t` length grows by as many
   * bytes, wrapping at 256.
   */
  method AppendItem(body: seq<Byte>, size: Byte, item: ServiceDataItem) returns (body': seq<Byte>, size': Byte)
    ensures body' == body + ItemBytes(item)
    ensures size' == (size + 1 + ValueWidth(item.dataType)) % 256
  {
    var value := item.dataValue;
    body' := body + [ObjectId(item.dataType)];
    size' := (size + 1) % 256;
    match item.dataType {
      case Temperature | Humidity =>
        body' := body' + [ByteOf(value, 0), ByteOf(value, 1)];
        size' := (size' + 2) % 256;
      case Pressure =>
        body' := body' + [ByteOf(value, 0), ByteOf(value, 1), ByteOf(value, 2)];
        size' := (size' + 3) % 256;
      case PacketId | Battery =>
    }
    ItemBytesAreShiftedBytes(item);
  }

  /** Serialising one more stored item appends its bytes and its count. */
  lemma PrefixStep(items: seq<ServiceDataItem>, i: nat)
    requires i < |items|
    ensures ItemsBytes(items[..i + 1]) == ItemsBytes(items[..i]) + ItemBytes(items[i])
    ensures ItemsLength(items[..i + 1]) == ItemsLength(items[..i]) + 1 + ValueWidth(items[i].dataType)
  {
    assert items[..i + 1] == items[..i] + [items[i]];
    ItemsBytesAppend(items[..i], items[i]);
    ItemsLengthAppend(items[..i], items[i]);
  }

  /**
   * One more item extends the bytes by its encoding and the `uint8_t` length,
   * which wraps, by its tag and value width.
   */
  lemma EmitStep(items: seq<ServiceDataItem>, i: nat, size: int)
    requires i < |items| && size == (4 + ItemsLength(items[..i])) % 256
    ensures ItemsBytes(items[..i + 1]) == ItemsBytes(items[..i]) + ItemBytes(items[i])
    ensures (size + 1 + ValueWidth(items[i].dataType)) % 256 == (4 + ItemsLength(items[..i + 1])) % 256
  {
    PrefixStep(items, i);
    WrapAdd(4 + ItemsLength(items[..i]), 1 + ValueWidth(items[i].dataType));
  }

  /** Adding to a wrapped `uint8_t` and wrapping again is adding and wrapping once. */
  lemma WrapAdd(x: nat, c: nat)
    ensures (x % 256 + c) % 256 == (x + c) % 256
  {
    var y := x % 256 + c;
    DivModUnique(x + c, 256, x / 256 + y / 256, y % 256);
  }

  /** The bytes the serialiser's `switch` writes for an item are its tag and its little-endian value. */
  lemma ItemBytesAreShiftedBytes(item: ServiceDataItem)
    ensures ItemBytes(item) == [ObjectId(item.dataType)] +
      match item.dataType
      case Temperature | Humidity => [ByteOf(item.dataValue, 0), ByteOf(item.dataValue, 1)]
      case Pressure => [ByteOf(item.dataValue, 0), ByteOf(item.dataValue, 1), ByteOf(item.dataValue, 2)]
      case PacketId | Battery => []
  {
    var w := ValueWidth(item.dataType);
    forall k | 0 <= k < w
      ensures LittleEndian(item.dataValue, w)[k] == ByteOf(item.dataValue, k)
    {
      LittleEndianByteOf(item.dataValue, w, k);
    }
  }

  /**
   * `std::sort(a, a + n, serviceDataItemCompareFn)`: the first `n` items end
   * up in non-decreasing object-id order and are a rearrangement of what was
   * there; nothing else changes. Ties may end up in any order. (An insertion
   * sort stands for the library's algorithm.)
   */
  method SortByObjectId(a: array<ServiceDataItem>, n: nat)
    requires n <= a.Length
    modifies a
    ensures SortedByObjectId(a[..n])
    ensures multiset(a[..n]) == multiset(old(a[..n]))
    ensures a[n..] == old(a[n..])
  {
    var i := 0;
    while i < n
      invariant 0 <= i <= n
      invariant SortedByObjectId(a[..i])
      invariant multiset(a[..n]) == multiset(old(a[..n]))
      invariant a[n..] == old(a[n..])
    {
      ghost var before := a[..];
      InsertOne(a, i);
      RearrangedPrefix(before, a[..], i + 1, n);
      i := i + 1;
    }
  }

  /**
   * One pass of the insertion sort: takes `a[i]` out, shifts the larger items
   * of the sorted `a[..i]` one place right and puts it into the gap, so
   * `a[..i + 1]` becomes a sorted rearrangement of itself; nothing after it
   * moves.
   */
  method InsertOne(a: array<ServiceDataItem>, i: nat)
    requires i < a.Length && SortedByObjectId(a[..i])
    modifies a
    ensures SortedByObjectId(a[..i + 1])
    ensures multiset(a[..i + 1]) == multiset(old(a[..i + 1]))
    ensures a[i + 1..] == old(a[i + 1..])
  {
    ghost var s0 := a[..];
    var x := a[i];
    var j := i;
    while j > 0 && ComesBefore(x, a[j - 1])
      invariant 0 <= j <= i
      invariant a[..j] == s0[..j]
      invariant a[j + 1..i + 1] == s0[j..i]
      invariant a[i + 1..] == s0[i + 1..]
      invariant forall k :: j <= k < i ==> ObjectId(x.dataType) < ObjectId(s0[k].dataType)
    {
      assert a[j - 1] == s0[..j][j - 1];
      a[j] := a[j - 1];
      assert a[j..i + 1] == [s0[j - 1]] + s0[j..i];
      j := j - 1;
    }
    assert j > 0 ==> a[j - 1] == s0[..j][j - 1];
    FillGap(a, s0, j, i, x);
    InsertedSorted(s0, j, i);
  }

  /** Writes `x` into the gap at `j` left by shifting `s0[j..i]` one place right. */
  method FillGap(a: array<ServiceDataItem>, ghost s0: seq<ServiceDataItem>, j: nat, i: nat, x: ServiceDataItem)
    requires j <= i < a.Length == |s0|
    requires a[..j] == s0[..j] && a[j + 1..i + 1] == s0[j..i] && a[i + 1..] == s0[i + 1..]
    modifies a
    ensures a[..i + 1] == s0[..j] + [x] + s0[j..i]
    ensures a[i + 1..] == s0[i + 1..]
  {
    a[j] := x;
    assert a[..i + 1] == a[..j] + [a[j]] + a[j + 1..i + 1];
  }

  /**
   * Putting `s[i]` between `s[..j]` and `s[j..i]`, where it is no smaller than
   * what comes before and smaller than what comes after, sorts the sorted
   * `s[..i]` extended by it, and only rearranges `s[..i + 1]`.
   */
  lemma InsertedSorted(s: seq<ServiceDataItem>, j: nat, i: nat)
    requires j <= i < |s| && SortedByObjectId(s[..i])
    requires j == 0 || ObjectId(s[j - 1].dataType) <= ObjectId(s[i].dataType)
    requires forall k :: j <= k < i ==> ObjectId(s[i].dataType) < ObjectId(s[k].dataType)
    ensures SortedByObjectId(s[..j] + [s[i]] + s[j..i])
    ensures multiset(s[..j] + [s[i]] + s[j..i]) == multiset(s[..i + 1])
  {
    SortedSlice(s[..i], 0, j);
    SortedSlice(s[..i], j, i);
    assert s[..i][..j] == s[..j] && s[..i][j..i] == s[j..i];
    AllBelow(s[..j], s[i]);
    SortedJoin(s[..j], s[i], s[j..i]);
    assert s[..i + 1] == s[..j] + s[j..i] + [s[i]];
  }

  /** A slice of a sorted sequence is sorted. */
  lemma SortedSlice(t: seq<ServiceDataItem>, lo: nat, hi: nat)
    requires lo <= hi <= |t| && SortedByObjectId(t)
    ensures SortedByObjectId(t[lo..hi])
  {
    forall k, l | 0 <= k < l < hi - lo
      ensures ObjectId(t[lo..hi][k].dataType) <= ObjectId(t[lo..hi][l].dataType)
    {
      assert t[lo..hi][k] == t[lo + k] && t[lo..hi][l] == t[lo + l];
    }
  }

  /** Every item of a sorted run is no larger than `x` when its last one is not. */
  lemma AllBelow(p: seq<ServiceDataItem>, x: ServiceDataItem)
    requires SortedByObjectId(p)
    requires p == [] || ObjectId(p[|p| - 1].dataType) <= ObjectId(x.dataType)
    ensures forall k :: 0 <= k < |p| ==> ObjectId(p[k].dataType) <= ObjectId(x.dataType)
  {
  }

  /** Two sorted runs with `x` between them, no smaller than the first and smaller than the second, are sorted. */
  lemma SortedJoin(p: seq<ServiceDataItem>, x: ServiceDataItem, q: seq<ServiceDataItem>)
    requires SortedByObjectId(p) && SortedByObjectId(q)
    requires forall k :: 0 <= k < |p| ==> ObjectId(p[k].dataType) <= ObjectId(x.dataType)
    requires forall k :: 0 <= k < |q| ==> ObjectId(x.dataType) < ObjectId(q[k].dataType)
    ensures SortedByObjectId(p + [x] + q)
  {
    var t := p + [x] + q;
    forall k, l | 0 <= k < l < |t|
      ensures ObjectId(t[k].dataType) <= ObjectId(t[l].dataType)
    {
      if l > |p| {
        assert t[l] == q[l - |p| - 1];
      }
      if k > |p| {
        assert t[k] == q[k - |p| - 1];
      }
    }
  }

  /** Rearranging a prefix and keeping what follows it rearranges every longer prefix and keeps its tail. */
  lemma RearrangedPrefix(s: seq<ServiceDataItem>, t: seq<ServiceDataItem>, m: nat, n: nat)
    requires m <= n <= |s| == |t|
    requires multiset(t[..m]) == multiset(s[..m]) && t[m..] == s[m..]
    ensures multiset(t[..n]) == multiset(s[..n]) && t[n..] == s[n..]
  {
    assert s[..n] == s[..m] + s[m..][..n - m] && t[..n] == t[..m] + t[m..][..n - m];
    assert s[n..] == s[m..][n - m..] && t[n..] == t[m..][n - m..];
  }

  /**
   * The worked example of src/main.cpp's hex walkthrough, built through the
   * class: reset, add temperature 25.00 and humidity 50.55 (scaled by 100)
   * in either order, build.
   */
  method ExampleCycle(temperatureFirst: bool) returns (serviceData: seq<Byte>)
    ensures serviceData == [0x0A, 0x16, 0xD2, 0xFC, 0x40, 0x02, 0xC4, 0x09, 0x03, 0xBF, 0x13]
  {
    var builder := new PayloadBuilder([0x48, 0x4F, 0x4E]);
    builder.ResetServiceData();
    if temperatureFirst {
      builder.AddTemperature(2500);
      builder.AddHumidity(5055);
    } else {
      builder.AddHumidity(5055);
      builder.AddTemperature(2500);
    }
    ghost var added := builder.Items();
    assert multiset(added) == multiset{ServiceDataItem(Temperature, 2500), ServiceDataItem(Humidity, 5055)};
    serviceData := builder.GetServiceData();
    WorkedExample(builder.Items());
  }

  /**
   * Reset discards earlier items: building right after a reset gives the
   * name structure followed by the bare header `04 16 D2 FC 40`.
   */
  method EmptyCycle(deviceName: seq<Byte>, stale: Uint64) returns (advertisingPayload: seq<Byte>)
    ensures advertisingPayload == NameAdStructure(deviceName) + [0x04, 0x16, 0xD2, 0xFC, 0x40]
  {
    var builder := new PayloadBuilder(deviceName);
    builder.AddPressure(stale);
    builder.ResetServiceData();
    advertisingPayload := builder.GetAdvertisingPayload();
    assert builder.Items() == [];
    EmptyServiceData();
  }
}
