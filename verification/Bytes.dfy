/**
 Bytes, incremental digests, and reading in chunks. The digest itself is a parameter: what
 counts is that updating with pieces is digesting their concatenation.
 */
module Bytes {

  type Byte = b: int | 0 <= b < 256

  type Data = seq<Byte>

  type Digest = Data -> string

  /** `hashlib.sha256()`: what it has been updated with so far. */
  class Sha256 {
    var absorbed: Data

    constructor ()
      ensures absorbed == []
    {
      absorbed := [];
    }

    method Update(data: Data)
      modifies this
      ensures absorbed == old(absorbed) + data
    {
      absorbed := absorbed + data;
    }

    function HexDigest(digest: Digest): string
      reads this
    {
      digest(absorbed)
    }
  }

  /** Something to read from. A read returns some of what is left, at least one byte unless
      nothing is left, and never more than asked for. */
  class Source {
    var left: Data

    constructor (data: Data)
      ensures left == data
    {
      left := data;
    }

    method Read(size: nat) returns (chunk: Data)
      requires size > 0
      modifies this
      ensures chunk + left == old(left) && |chunk| <= size
      ensures chunk == [] <==> old(left) == []
    {
      if left == [] {
        return [];
      }
      var k :| 1 <= k <= size && k <= |left|;
      chunk, left := left[..k], left[k..];
    }
  }

  /** Something to write to. */
  class Sink {
    var written: Data

    constructor ()
      ensures written == []
    {
      written := [];
    }

    method Write(data: Data)
      modifies this
      ensures written == old(written) + data
    {
      written := written + data;
    }
  }

  const CHUNK := 2048

  /** Copies everything, however the reads are split, and returns its digest. */
  method ReadWithHash(readMore: Source, writeTo: Sink?, digest: Digest) returns (hex: string)
    modifies readMore, if writeTo == null then {} else {writeTo}
    ensures readMore.left == []
    ensures writeTo != null ==> writeTo.written == old(writeTo.written) + old(readMore.left)
    ensures hex == digest(old(readMore.left))
  {
    var md := new Sha256();
    var chunk := readMore.Read(CHUNK);
    while chunk != []
      invariant md.absorbed + chunk + readMore.left == old(readMore.left)
      invariant chunk == [] ==> readMore.left == []
      invariant writeTo != null ==> writeTo.written == old(writeTo.written) + md.absorbed
      decreases |chunk| + |readMore.left|
    {
      md.Update(chunk);
      if writeTo != null {
        writeTo.Write(chunk);
      }
      chunk := readMore.Read(CHUNK);
    }
    assert md.absorbed == old(readMore.left);
    hex := md.HexDigest(digest);
  }
}
