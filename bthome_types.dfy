/**
 * The value types that lib/BTHome/BTHome.h declares: the `DataType` object-id
 * enumeration and the `ServiceDataItem` record, plus the machine integer
 * ranges the builder works in.
 */
module BTHomeTypes {
  import opened Wrappers

  /** One `char` of a `std::string`, read as the unsigned byte it carries. */
  type Byte = b: int | 0 <= b < 256

  /** Exclusive upper bound of `uint64_t`. */
  const UINT64_LIMIT: int := 0x1_0000_0000_0000_0000

  /** A `uint64_t`: the type of an already-scaled measurement value. */
  type Uint64 = v: int | 0 <= v < UINT64_LIMIT

  /** The `DataType` enumeration: the BTHome v2 objects the builder knows. */
  datatype DataType = PacketId | Battery | Temperature | Humidity | Pressure

  /** The enumerator's underlying `uint8_t`: the BTHome object id sent on the wire. */
  function ObjectId(t: DataType): (id: Byte)
    ensures id <= 0x04
  {
    match t
    case PacketId => 0x00
    case Battery => 0x01
    case Temperature => 0x02
    case Humidity => 0x03
    case Pressure => 0x04
  }

  /**
   * The enumerator whose object id is `id`, if the enumeration declares one:
   * the inverse of `ObjectId`, kept to show that object ids are distinct.
   * A receiver reads tag bytes with its own object table, `ServiceData.Format`.
   */
  function DataTypeOf(id: Byte): (r: Option<DataType>)
    ensures r.Some? <==> id <= 0x04
    ensures r.Some? ==> ObjectId(r.value) == id
  {
    if id == 0x00 then Some(PacketId)
    else if id == 0x01 then Some(Battery)
    else if id == 0x02 then Some(Temperature)
    else if id == 0x03 then Some(Humidity)
    else if id == 0x04 then Some(Pressure)
    else None
  }

  /** Reading back the tag of any enumerator gives that enumerator: ids are distinct. */
  lemma DataTypeOfObjectId(t: DataType)
    ensures DataTypeOf(ObjectId(t)) == Some(t)
  {
  }

  /** Two enumerators with the same object id are the same enumerator. */
  lemma ObjectIdInjective(t: DataType, u: DataType)
    ensures ObjectId(t) == ObjectId(u) <==> t == u
  {
  }

  /** One pending measurement: its kind and its scaled integer value. */
  datatype ServiceDataItem = ServiceDataItem(dataType: DataType, dataValue: Uint64)
}
