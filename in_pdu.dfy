/** An inbound iSCSI PDU being read from the socket: the header is filled
    first, then the padded data segment (allocated once the header says how
    long it is), then the data digest when one was negotiated. */
module IscsiInPdu {
  import opened IscsiWire

  /** Copies as much of src as fits into dst from position pos on, and says
      how many bytes that was. */
  method CopyInto(dst: array<byte>, pos: nat, src: seq<byte>) returns (n: nat)
    requires pos <= dst.Length
    modifies dst
    ensures n == Min(|src|, dst.Length - pos)
    ensures dst[..pos + n] == old(dst[..pos]) + src[..n]
    ensures dst[pos + n..] == old(dst[pos + n..])
  {
    n := Min(|src|, dst.Length - pos);
    var i := 0;
    while i < n
      invariant 0 <= i <= n
      invariant forall k :: 0 <= k < pos ==> dst[k] == old(dst[k])
      invariant forall k :: pos <= k < pos + i ==> dst[k] == src[k - pos]
      invariant forall k :: pos + i <= k < dst.Length ==> dst[k] == old(dst[k])
    {
      dst[pos + i] := src[i];
      i := i + 1;
    }
  }

  class InPdu {
    /** The header buffer: the Basic Header Segment and any header digest. */
    const hdr: array<byte>
    var hdrPos: nat
    /** The data segment and its padding; null until the header is in. */
    var data: array?<byte>
    var dataPos: nat
    /** Whether a data digest follows the data segment. */
    const dataDigest: bool
    const dataDigestBuf: array<byte>
    var receivedDataDigestBytes: nat

    function DigestLength(): nat {
      if dataDigest then DigestSize else 0
    }

    ghost function Repr(): set<object>
      reads this
    {
      {this, hdr, dataDigestBuf} + (if data == null then {} else {data})
    }

    /** Each cursor stays within its buffer; the data buffer exists exactly
        once the header is complete and then has the padded length the
        header announces; digest bytes arrive only after all data bytes. */
    ghost predicate Valid()
      reads this, hdr
    {
      && hdr.Length >= RawHeaderSize
      && dataDigestBuf.Length == DigestSize
      && hdr != dataDigestBuf
      && hdrPos <= hdr.Length
      && (data == null <==> hdrPos < hdr.Length)
      && (data == null ==> dataPos == 0)
      && (data != null ==>
            && data != hdr && data != dataDigestBuf
            && data.Length == DataSize(hdr[..RawHeaderSize])
            && dataPos <= data.Length)
      && receivedDataDigestBytes <= DigestLength()
      && (receivedDataDigestBytes > 0 ==> data != null && dataPos == data.Length)
    }

    /** The bytes read so far, in wire order. */
    ghost function Received(): seq<byte>
      requires Valid()
      reads this, hdr, data, dataDigestBuf
    {
      hdr[..hdrPos]
      + (if data == null then [] else data[..dataPos])
      + dataDigestBuf[..receivedDataDigestBytes]
    }

    /** Bytes still missing from the part of the PDU now being read. */
    function Remaining(): (n: nat)
      requires Valid()
      reads this, hdr
      ensures data == null ==> n > 0
    {
      if data == null then hdr.Length - hdrPos
      else if dataPos < data.Length then data.Length - dataPos
      else DigestLength() - receivedDataDigestBytes
    }

    /** All of header, data and digest have arrived. */
    predicate Complete()
      requires Valid()
      reads this, hdr
      ensures Complete() <==> Remaining() == 0
    {
      data != null && dataPos == data.Length && receivedDataDigestBytes == DigestLength()
    }

    /** A complete PDU is exactly a header, the padded data segment that
        header announces, and the digest. */
    lemma CompleteLength()
      requires Valid() && Complete()
      ensures |Received()| == hdr.Length + DataSize(hdr[..RawHeaderSize]) + DigestLength()
    {
    }

    constructor (digest: HeaderDigest, dataDigest: bool)
      ensures Valid() && fresh(Repr())
      ensures hdr.Length == HeaderSize(digest) && this.dataDigest == dataDigest
      ensures Received() == [] && Remaining() == HeaderSize(digest)
    {
      hdr := new byte[HeaderSize(digest)];
      hdrPos := 0;
      data := null;
      dataPos := 0;
      this.dataDigest := dataDigest;
      dataDigestBuf := new byte[DigestSize];
      receivedDataDigestBytes := 0;
    }

    /** Takes as many of `bytes` as the part now being read still needs,
        appending them to what was received. Completing the header allocates
        the data buffer. */
    method Feed(bytes: seq<byte>) returns (used: nat)
      requires Valid()
      modifies Repr()
      ensures Valid() && fresh(Repr() - old(Repr()))
      ensures used == Min(|bytes|, old(Remaining()))
      ensures Received() == old(Received()) + bytes[..used]
    {
      if data == null {
        used := FeedHeader(bytes);
      } else if dataPos < data.Length {
        used := FeedData(bytes);
      } else if dataDigest {
        used := FeedDigest(bytes);
      } else {
        used := 0;
      }
    }

    method FeedHeader(bytes: seq<byte>) returns (used: nat)
      requires Valid() && data == null
      modifies this`hdrPos, this`data, hdr
      ensures Valid() && fresh(Repr() - old(Repr()))
      ensures used == Min(|bytes|, old(Remaining()))
      ensures Received() == old(Received()) + bytes[..used]
    {
      assert Received() == hdr[..hdrPos];
      used := CopyInto(hdr, hdrPos, bytes);
      hdrPos := hdrPos + used;
      if hdrPos == hdr.Length {
        data := new byte[DataSize(hdr[..RawHeaderSize])];
        assert data[..0] == [];
      }
      assert Received() == hdr[..hdrPos];
    }

    method FeedData(bytes: seq<byte>) returns (used: nat)
      requires Valid() && data != null && dataPos < data.Length
      modifies this`dataPos, data
      ensures Valid()
      ensures used == Min(|bytes|, old(Remaining()))
      ensures Received() == old(Received()) + bytes[..used]
    {
      assert Received() == hdr[..hdrPos] + data[..dataPos];
      used := CopyInto(data, dataPos, bytes);
      dataPos := dataPos + used;
      assert Received() == hdr[..hdrPos] + data[..dataPos];
    }

    method FeedDigest(bytes: seq<byte>) returns (used: nat)
      requires Valid() && data != null && dataPos == data.Length && dataDigest
      modifies this`receivedDataDigestBytes, dataDigestBuf
      ensures Valid()
      ensures used == Min(|bytes|, old(Remaining()))
      ensures Received() == old(Received()) + bytes[..used]
    {
      used := CopyInto(dataDigestBuf, receivedDataDigestBytes, bytes);
      receivedDataDigestBytes := receivedDataDigestBytes + used;
    }
  }
}
