/**
 * The session record codec: the item collection a request works on, the
 * blob it is stored as, and the store data handed back to the host.
 *
 * The binary layout written by SessionStateItemCollection.Serialize is not
 * modelled. A blob is either the encoding of an item collection or a byte
 * string that is not such an encoding; the empty byte string is the one such
 * string that still reads back, as the empty collection.
 */
module Codec {
  import opened Common

  /** The session item collection: item name to (opaque) item value. */
  type Items = map<string, string>

  datatype Blob = Encoded(items: Items) | Raw(bytes: seq<bv8>)

  predicate IsEmptyBlob(b: Blob) {
    b.Raw? && |b.bytes| == 0
  }

  /** Deserialize: a zero-length blob is an empty collection, any other non-encoding fails. */
  function Deserialize(b: Blob): (r: Result<Items>)
    ensures IsEmptyBlob(b) ==> r == Ok(map[])
    ensures r.Err? <==> b.Raw? && |b.bytes| > 0
    ensures r.Err? ==> r.failure == CodecFailure
  {
    match b
    case Encoded(items) => Ok(items)
    case Raw(bytes) => if |bytes| == 0 then Ok(map[]) else Err(CodecFailure)
  }

  /** Serialize: never the empty blob (even for the empty collection), and it reads back as what was written. */
  function Serialize(items: Items): (b: Blob)
    ensures !IsEmptyBlob(b)
    ensures Deserialize(b) == Ok(items)
  {
    Encoded(items)
  }

  /** What a read hands the host: the items and the session timeout in minutes. */
  datatype StoreData = StoreData(items: Items, timeout: int)

  /** CreateNewStoreData: a fresh, empty collection with the given timeout. */
  function NewStoreData(timeout: int): (d: StoreData)
    ensures d.items == map[] && d.timeout == timeout
  {
    StoreData(map[], timeout)
  }
}
