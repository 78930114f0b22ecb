/**
 The byte buffer of the recorder: an array with a readable part between two indices and room to
 prepend in front of it. Every method is specified by what it does to the readable bytes.
 */
module ByteBuffer {
  import opened Arith
  import opened ByteCodec

  const CHEAP_PREPEND: nat := 8

  class Buffer {
    var data: array<byte>
    var readerIndex: nat
    var writerIndex: nat

    ghost predicate Valid()
      reads this
    {
      readerIndex <= writerIndex <= data.Length && CHEAP_PREPEND <= data.Length
    }

    ghost function Contents(): (b: Bytes)
      requires Valid()
      reads this, data
      ensures |b| == writerIndex - readerIndex
    {
      data[readerIndex..writerIndex]
    }

    constructor (initialSize: nat)
      ensures Valid() && fresh(data) && Contents() == []
      ensures readerIndex == CHEAP_PREPEND && data.Length == CHEAP_PREPEND + initialSize
    {
      data := new byte[CHEAP_PREPEND + initialSize](i => 0);
      readerIndex, writerIndex := CHEAP_PREPEND, CHEAP_PREPEND;
    }

    function ReadableBytes(): nat
      requires Valid()
      reads this
    {
      writerIndex - readerIndex
    }

    function WritableBytes(): nat
      requires Valid()
      reads this
    {
      data.Length - writerIndex
    }

    function PrependableBytes(): nat
      reads this
    {
      readerIndex
    }

    /** Consuming everything resets the indices; room to prepend never falls below what it was or eight. */
    method Retrieve(len: nat)
      requires Valid() && len <= ReadableBytes()
      modifies this`readerIndex, this`writerIndex
      ensures Valid() && Contents() == old(Contents())[len..]
      ensures readerIndex >= old(readerIndex) || readerIndex >= CHEAP_PREPEND
    {
      if len < ReadableBytes() {
        readerIndex := readerIndex + len;
      } else {
        RetrieveAll();
      }
    }

    method RetrieveAll()
      requires Valid()
      modifies this`readerIndex, this`writerIndex
      ensures Valid() && Contents() == [] && readerIndex == CHEAP_PREPEND
    {
      readerIndex, writerIndex := CHEAP_PREPEND, CHEAP_PREPEND;
    }

    method RetrieveAsString(len: nat) returns (result: Bytes)
      requires Valid() && len <= ReadableBytes()
      modifies this`readerIndex, this`writerIndex
      ensures Valid() && result == old(Contents())[..len] && Contents() == old(Contents())[len..]
      ensures readerIndex >= old(readerIndex) || readerIndex >= CHEAP_PREPEND
    {
      result := data[readerIndex..readerIndex + len];
      Retrieve(len);
    }

    method Append(bytes: Bytes)
      requires Valid()
      modifies this, data
      ensures Valid() && Contents() == old(Contents()) + bytes
      ensures readerIndex >= old(readerIndex) || readerIndex >= CHEAP_PREPEND
      ensures data == old(data) || fresh(data)
    {
      EnsureWritableBytes(|bytes|);
      AppendInPlace(bytes);
    }

    method EnsureWritableBytes(len: nat)
      requires Valid()
      modifies this, data
      ensures Valid() && Contents() == old(Contents()) && WritableBytes() >= len
      ensures readerIndex >= old(readerIndex) || readerIndex >= CHEAP_PREPEND
      ensures data == old(data) || fresh(data)
    {
      if WritableBytes() < len {
        MakeSpace(len);
      }
    }

    /** Grows the array, or moves the readable bytes to its front when that makes enough room. */
    method MakeSpace(len: nat)
      requires Valid() && WritableBytes() < len
      modifies this, data
      ensures Valid() && Contents() == old(Contents()) && WritableBytes() >= len
      ensures readerIndex >= old(readerIndex) || readerIndex >= CHEAP_PREPEND
      ensures data == old(data) || fresh(data)
    {
      if WritableBytes() + PrependableBytes() < len + CHEAP_PREPEND {
        var s := data[..];
        data := new byte[writerIndex + len](i => if 0 <= i < |s| then s[i] else 0);
        assert data[..|s|] == s;
        assert data[readerIndex..writerIndex] == s[readerIndex..writerIndex];
      } else {
        assert CHEAP_PREPEND < readerIndex;
        var readable := ReadableBytes();
        MoveDown(readable);
        readerIndex := CHEAP_PREPEND;
        writerIndex := readerIndex + readable;
      }
    }

    /** Copies the readable bytes to the front, first byte first. */
    method MoveDown(readable: nat)
      requires Valid() && CHEAP_PREPEND < readerIndex && readable == ReadableBytes()
      modifies data
      ensures data[CHEAP_PREPEND..CHEAP_PREPEND + readable] == old(Contents())
    {
      var k := 0;
      ghost var before := data[..];
      while k < readable
        invariant 0 <= k <= readable
        invariant forall j :: CHEAP_PREPEND <= j < CHEAP_PREPEND + k ==> data[j] == before[readerIndex + (j - CHEAP_PREPEND)]
        invariant forall j :: readerIndex + k <= j < data.Length ==> data[j] == before[j]
      {
        data[CHEAP_PREPEND + k] := data[readerIndex + k];
        k := k + 1;
      }
      assert before[readerIndex..writerIndex] == old(Contents());
    }

    /** Bytes that were written behind the readable part join it. */
    method HasWritten(len: nat)
      requires Valid() && len <= WritableBytes()
      modifies this`writerIndex
      ensures Valid() && writerIndex == old(writerIndex) + len
      ensures Contents() == old(Contents()) + data[old(writerIndex)..writerIndex]
    {
      writerIndex := writerIndex + len;
    }

    method Unwrite(len: nat)
      requires Valid() && len <= ReadableBytes()
      modifies this`writerIndex
      ensures Valid() && Contents() == old(Contents())[..|old(Contents())| - len]
    {
      ghost var before := Contents();
      writerIndex := writerIndex - len;
      assert Contents() == before[..|before| - len];
    }

    method Prepend(bytes: Bytes)
      requires Valid() && |bytes| <= PrependableBytes()
      modifies this`readerIndex, data
      ensures Valid() && Contents() == bytes + old(Contents())
      ensures readerIndex == old(readerIndex) - |bytes|
    {
      ghost var before := Contents();
      readerIndex := readerIndex - |bytes|;
      forall i | 0 <= i < |bytes| {
        data[readerIndex + i] := bytes[i];
      }
      assert data[readerIndex..readerIndex + |bytes|] == bytes;
      assert data[readerIndex + |bytes|..writerIndex] == before;
      assert Contents() == data[readerIndex..readerIndex + |bytes|] + data[readerIndex + |bytes|..writerIndex];
    }

    /**
     Replaces the array by one that holds the readable bytes with room for reserve more. Their number
     passes through a 32-bit integer: when that is negative, making the text of them throws, and
     from 4 GiB on it is too small.
     */
    method Shrink(reserve: nat) returns (ok: bool)
      requires Valid()
      modifies this
      ensures Valid() && (ok <==> U32(|old(Contents())|) < TWO32 / 2)
      ensures ok ==>
        && Contents() == old(Contents())[..U32(|old(Contents())|)] && WritableBytes() >= reserve
        && fresh(data) && readerIndex >= CHEAP_PREPEND
      ensures !ok ==> Contents() == old(Contents())
    {
      var length := U32(ReadableBytes());
      LowBitsFit(ReadableBytes());
      if length >= TWO32 / 2 {
        return false;
      }
      var other := CopyOf(length, reserve);
      data, readerIndex, writerIndex := other.data, other.readerIndex, other.writerIndex;
      return true;
    }

    method CopyOf(length: nat, reserve: nat) returns (other: Buffer)
      requires Valid() && length <= ReadableBytes()
      ensures fresh(other) && fresh(other.data) && other.Valid() && other.readerIndex >= CHEAP_PREPEND
      ensures other.Contents() == Contents()[..length] && other.WritableBytes() >= reserve
    {
      other := new Buffer(1024);
      other.EnsureWritableBytes(ReadableBytes() + reserve);
      other.AppendInPlace(data[readerIndex..writerIndex][..length]);
    }

    /** append for bytes that fit, so that it does not move anything. */
    method AppendInPlace(bytes: Bytes)
      requires Valid() && |bytes| <= WritableBytes()
      modifies this`writerIndex, data
      ensures Valid() && Contents() == old(Contents()) + bytes
      ensures writerIndex == old(writerIndex) + |bytes|
    {
      ghost var before := Contents();
      forall i | 0 <= i < |bytes| {
        data[writerIndex + i] := bytes[i];
      }
      assert data[readerIndex..writerIndex] == before;
      HasWritten(|bytes|);
    }

    // The integer members of the source are these, for n of 1, 2, 4 and 8 bytes.

    method AppendInt(x: int, n: nat)
      requires Valid() && FitsSigned(x, n)
      modifies this, data
      ensures Valid() && Contents() == old(Contents()) + EncodeInt(x, n)
      ensures readerIndex >= old(readerIndex) || readerIndex >= CHEAP_PREPEND
      ensures data == old(data) || fresh(data)
    {
      Append(EncodeInt(x, n));
    }

    method PrependInt(x: int, n: nat)
      requires Valid() && FitsSigned(x, n) && n <= PrependableBytes()
      modifies this`readerIndex, data
      ensures Valid() && Contents() == EncodeInt(x, n) + old(Contents())
      ensures readerIndex == old(readerIndex) - n
    {
      Prepend(EncodeInt(x, n));
    }

    method PeekInt(n: nat) returns (x: int)
      requires Valid() && n <= ReadableBytes()
      ensures x == DecodeInt(Contents()[..n])
    {
      x := DecodeInt(data[readerIndex..readerIndex + n]);
      assert data[readerIndex..readerIndex + n] == Contents()[..n];
    }

    method ReadInt(n: nat) returns (x: int)
      requires Valid() && n <= ReadableBytes()
      modifies this`readerIndex, this`writerIndex
      ensures Valid() && x == DecodeInt(old(Contents())[..n]) && Contents() == old(Contents())[n..]
      ensures readerIndex >= old(readerIndex) || readerIndex >= CHEAP_PREPEND
    {
      x := PeekInt(n);
      Retrieve(n);
    }
  }

  lemma LowBitsFit(n: nat)
    ensures U32(n) <= n && (n < TWO32 ==> U32(n) == n)
  {
  }

  /** So shrinking keeps everything if and only if there are less than 2 GiB. */
  lemma ShrinkKeepsExactly(n: nat)
    ensures U32(n) < TWO32 / 2 && U32(n) == n <==> n < TWO32 / 2
  {
  }
}
