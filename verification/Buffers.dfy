/** The cursor and the growing output of the `bytes` crate, shared by the two codecs. */
module Buffers {
  import opened Bytes
  import opened AmfValue

  datatype Result<+T> = Success(value: T) | Failure(error: DecodeError)

  /** `&mut Bytes`: what is left to read. */
  class Buffer {
    var data: bytes

    constructor (data: bytes)
      ensures this.data == data
    {
      this.data := data;
    }

    method GetU8() returns (b: byte)
      requires data != []
      modifies this
      ensures [b] + data == old(data)
    {
      b := data[0];
      data := data[1..];
    }

    method Take(n: nat) returns (taken: bytes)
      requires n <= |data|
      modifies this
      ensures taken == old(data)[..n] && data == old(data)[n..]
    {
      taken := data[..n];
      data := data[n..];
    }
  }

  /** `&mut BytesMut` */
  class Output {
    var data: bytes

    constructor ()
      ensures data == []
    {
      data := [];
    }

    method Put(b: bytes)
      modifies this
      ensures data == old(data) + b
    {
      data := data + b;
    }
  }
}
