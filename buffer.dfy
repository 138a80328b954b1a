/**
 * The per-event byte arena (`struct buffer`) and the slices into it
 * (`struct buffer_index`).  The header that defines them is not part of this
 * model: only the behaviour relied upon by the probes is modelled, namely that
 * `buffer_index_init` opens an empty slice at the current end of the buffer and
 * that `buffer_append_str` copies bytes to the end of the buffer and grows both
 * the buffer and the slice by the number of bytes copied.
 */
module Buffers {

  type byte = x: int | 0 <= x < 256

  /** The separator written before each path component. */
  const SLASH: seq<byte> := [0x2F]

  /** An offset and a length into the bytes of one buffer. */
  datatype BufferIndex = BufferIndex(start: nat, len: nat)

  /** The bytes a consumer reads for a slice of the trailing blob. */
  function Slice(blob: seq<byte>, index: BufferIndex): (r: seq<byte>)
    requires index.start + index.len <= |blob|
    ensures |r| == index.len
  {
    blob[index.start..index.start + index.len]
  }

  /** A fixed-capacity byte arena; `data.Length` plays the role of BUFFER_MAX. */
  class Buffer {
    const data: array<byte>
    var len: nat
    /** The bytes written so far. */
    ghost var Contents: seq<byte>

    ghost predicate Valid()
      reads this, data
    {
      len <= data.Length && Contents == data[..len]
    }

    constructor (capacity: nat)
      ensures Valid() && fresh(data)
      ensures data.Length == capacity && Contents == []
    {
      data := new byte[capacity];
      len := 0;
      Contents := [];
    }

    /** `buffer_index_init`: an empty slice at the current end of the buffer. */
    method IndexInit() returns (index: BufferIndex)
      requires Valid()
      ensures index.start == |Contents| && index.len == 0
    {
      index := BufferIndex(len, 0);
    }

    /** `buffer_append_str`: append `s` and grow the slice `index` by |s|. */
    method AppendStr(index: BufferIndex, s: seq<byte>) returns (index': BufferIndex)
      requires Valid()
      requires |Contents| + |s| <= data.Length
      modifies this, data
      ensures Valid()
      ensures Contents == old(Contents) + s
      ensures index' == BufferIndex(index.start, index.len + |s|)
    {
      forall k | 0 <= k < |s| {
        data[len + k] := s[k];
      }
      len := len + |s|;
      Contents := Contents + s;
      index' := BufferIndex(index.start, index.len + |s|);
    }
  }
}
