/** The growable, compacting byte FIFO of the receiving side. */
module BufferStreams {
  import opened Bytes

  const INT32_MAX: nat := 0x7FFF_FFFF

  /** The capacity after append: at most one doubling, when the free tail is too short. */
  function GrownCapacity(size: nat, write: nat, n: nat): nat
    requires write <= size
  {
    if n > size - write then size + size else size
  }

  /** append's copy stays inside the array exactly when the new bytes end within twice the capacity. */
  lemma AppendFitsExactly(size: nat, write: nat, n: nat)
    requires write <= size
    ensures write + n <= GrownCapacity(size, write, n) <==> write + n <= 2 * size
  {
  }

  /** A chunk no longer than the capacity always fits; a full 8192-byte read does not fit a new 2048-byte stream. */
  lemma AppendBound(size: nat, write: nat, n: nat)
    requires write <= size
    ensures n <= size ==> write + n <= GrownCapacity(size, write, n)
    ensures !(0 + 8192 <= GrownCapacity(2048, 0, 8192))
  {
  }

  lemma JoinSlices<T>(s: seq<T>, i: nat, j: nat, k: nat)
    requires i <= j <= k <= |s|
    ensures s[i..k] == s[..j][i..] + s[j..k]
  {
  }

  class BufferStream {
    var data: array<Byte>
    var write: nat
    var read: nat
    var size: nat

    ghost predicate Valid()
      reads this
    {
      data.Length == size && read <= write <= size <= INT32_MAX
    }

    /** The bytes appended and not yet consumed. */
    ghost function Contents(): seq<Byte>
      reads this, data
      requires Valid()
    {
      data[read..write]
    }

    constructor (initSize: nat)
      requires initSize <= INT32_MAX
      ensures Valid() && fresh(data)
      ensures Contents() == [] && size == initSize && read == write == 0
    {
      data := new Byte[initSize];
      write, read, size := 0, 0, initSize;
    }

    method Append(source: array<Byte>, n: nat) returns (stored: nat)
      requires Valid() && source != data && n <= source.Length
      requires write + n <= 2 * size && GrownCapacity(size, write, n) <= INT32_MAX
      modifies this, data
      ensures Valid() && (data == old(data) || fresh(data))
      ensures Contents() == old(Contents()) + source[..n]
      ensures size == GrownCapacity(old(size), old(write), n)
      ensures read == old(read) && write == old(write) + n
      ensures stored == n
    {
      MakeRoom(n);
      CopyIn(source, n);
      JoinSlices(data[..], read, write, write + n);
      write := write + n;
      return n;
    }

    /** The memcpy behind the stored bytes. */
    method CopyIn(source: array<Byte>, n: nat)
      requires Valid() && source != data && n <= source.Length && write + n <= size
      modifies data
      ensures data[..write] == old(data[..write])
      ensures data[..][write..write + n] == source[..n]
    {
      forall i | 0 <= i < n {
        data[write + i] := source[i];
      }
    }

    /** Doubles the array, once, when the free tail is shorter than n. */
    method MakeRoom(n: nat)
      requires Valid() && GrownCapacity(size, write, n) <= INT32_MAX
      modifies this`data, this`size
      ensures Valid() && (data == old(data) || fresh(data))
      ensures size == GrownCapacity(old(size), write, n)
      ensures Contents() == old(Contents())
    {
      var need := n - WriteableLength();
      if need > 0 {
        var grown := new Byte[size + size];
        forall i | 0 <= i < size {
          grown[i] := data[i];
        }
        data := grown;
        size := size + size;
      }
    }

    function WriteableLength(): nat
      reads this
      requires Valid()
    {
      size - write
    }

    function ReadableLength(): (n: nat)
      reads this, data
      requires Valid()
      ensures n == |Contents()|
    {
      write - read
    }

    /** The 32-bit word at read_addr. */
    function PeekU32(): (n: nat)
      reads this, data
      requires Valid() && ReadableLength() >= 4
      ensures n == ReadU32(Contents())
    {
      ReadU32(data[read..read + 4])
    }

    method OffsetRead(n: nat)
      requires Valid() && n <= ReadableLength()
      modifies this`read
      ensures Valid() && Contents() == old(Contents()[n..])
      ensures read == old(read) + n
    {
      read := read + n;
    }

    /** Moves the unread bytes to the front; source and destination may overlap. */
    method Retrieve()
      requires Valid()
      modifies this`read, this`write, data
      ensures Valid() && Contents() == old(Contents())
      ensures read == 0 && write == |Contents()|
    {
      if read == 0 { return; }
      var len := ReadableLength();
      if read != 0 {
        forall i | 0 <= i < len {
          data[i] := data[read + i];
        }
      }
      read := 0;
      write := len;
    }
  }
}
