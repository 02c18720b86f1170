/** Message buffers, the pools they are recycled through, and the choice of a pool by size. */
module BufferPools {
  import opened Bytes

  const CAPACITIES: seq<nat> := [64, 128, 256, 512, 1024, 2048, 4096, 8192, 16384, 32768, 65536]
  const SIZE_T: nat := 0x1_0000_0000_0000_0000

  /** The pool that alloc turns to for a (signed) size; 11 means none. */
  function PoolIndex(size: int): (i: nat)
    ensures i <= |CAPACITIES|
  {
    if size < 64 then 0
    else if size < 128 then 1
    else if size < 256 then 2
    else if size < 512 then 3
    else if size < 1024 then 4
    else if size < 2048 then 5
    else if size < 4096 then 6
    else if size < 8192 then 7
    else if size < 16384 then 8
    else if size < 32768 then 9
    else if size < 65536 then 10
    else 11
  }

  /** The chosen pool is the first, hence the smallest, whose buffers are larger than size; from 65536 on there is
      none. */
  lemma LeastSufficientPool(size: int)
    ensures PoolIndex(size) == |CAPACITIES| <==> size >= 65536
    ensures size < 65536 ==> size < CAPACITIES[PoolIndex(size)]
    ensures forall j :: 0 <= j < PoolIndex(size) ==> CAPACITIES[j] <= size
    ensures forall i, j :: 0 <= i < j < |CAPACITIES| ==> CAPACITIES[i] < CAPACITIES[j]
  {
    assert CAPACITIES[0] == 64;
  }

  class DataBuffer {
    const allocSize: nat
    const buffer: array<Byte>
    var totalLength: nat
    var headerLength: nat

    /** True of every buffer: the array is as long as the size it was made with. */
    ghost predicate Valid() {
      buffer.Length == allocSize
    }

    constructor (size: nat)
      ensures Valid() && allocSize == size && fresh(buffer)
      ensures totalLength == 0 && headerLength == 0
    {
      allocSize := size;
      buffer := new Byte[size];
      totalLength, headerLength := 0, 0;
    }

    /** The message: the first totalLength bytes. */
    ghost function Message(): seq<Byte>
      reads this, buffer
      requires Valid() && totalLength <= allocSize
    {
      buffer[..totalLength]
    }

    /** What body_buffer and body_length show of the message: the bytes from headerLength on. */
    ghost function Body(): seq<Byte>
      reads this, buffer
      requires Valid() && headerLength <= totalLength <= allocSize
      ensures |Body()| < SIZE_T ==> |Body()| == BodyLength()
    {
      buffer[headerLength..totalLength]
    }

    method SetTotalLength(n: nat)
      modifies this`totalLength
      ensures totalLength == n
    {
      totalLength := n;
    }

    method SetHeaderLength(n: nat)
      modifies this`headerLength
      ensures headerLength == n
    {
      headerLength := n;
    }

    /** An unsigned difference: it wraps when the message is shorter than its header. */
    function BodyLength(): nat
      reads this
    {
      (totalLength - headerLength) % SIZE_T
    }

    method Release()
      modifies this`totalLength, this`headerLength
      ensures totalLength == 0 && headerLength == 0
    {
      totalLength := 0;
      headerLength := 0;
    }

    /** Takes over n bytes of source from start on; refuses, changing nothing, when they do not fit. */
    method CopyFrom(source: array<Byte>, start: nat, n: nat) returns (copied: nat)
      requires Valid() && source != buffer && start + n <= source.Length
      modifies this`totalLength, buffer
      ensures n <= allocSize ==> copied == n == totalLength && Message() == source[start..start + n]
      ensures n > allocSize ==> copied == 0 && totalLength == old(totalLength) && buffer[..] == old(buffer[..])
    {
      if allocSize < n { return 0; }
      forall i | 0 <= i < n {
        buffer[i] := source[start + i];
      }
      totalLength := n;
      assert buffer[..n] == source[start..start + n];
      return n;
    }
  }

  /** One pool: a queue of free buffers; live holds those that a handle owns. */
  class BufferPool {
    const capacity: nat
    var freeQueue: seq<DataBuffer>
    ghost var live: set<DataBuffer>

    ghost function Free(): set<DataBuffer>
      reads this
    {
      set b | b in freeQueue
    }

    /** All buffers this pool has created. */
    ghost function Made(): set<DataBuffer>
      reads this
    {
      live + Free()
    }

    /** Every buffer is in one place of the free queue or in one live handle, never both; free ones are blank. */
    ghost predicate Valid()
      reads this, Free()
    {
      && (forall i, j :: 0 <= i < j < |freeQueue| ==> freeQueue[i] != freeQueue[j])
      && (forall b :: b in Free() ==> b !in live && b.totalLength == 0 && b.headerLength == 0)
      && (forall b :: b in Made() ==> b.Valid() && b.allocSize == capacity)
      && (forall b, c :: b in Made() && c in Made() && b != c ==> b.buffer != c.buffer)
    }

    constructor (capacity: nat)
      ensures Valid() && this.capacity == capacity && freeQueue == [] && live == {}
    {
      this.capacity := capacity;
      freeQueue, live := [], {};
    }

    /** Dequeues the element at pick, in whatever order the concurrent queue serves them, or makes a new one. */
    method Alloc(pick: nat) returns (b: DataBuffer)
      requires Valid()
      modifies this
      ensures Valid()
      ensures b !in old(live) && live == old(live) + {b}
      ensures b.totalLength == 0 && b.headerLength == 0 && b.allocSize == capacity && b.Valid()
      ensures if pick < |old(freeQueue)|
              then b == old(freeQueue)[pick] && freeQueue == old(freeQueue)[..pick] + old(freeQueue)[pick + 1..]
              else fresh(b) && fresh(b.buffer) && freeQueue == old(freeQueue)
      ensures Free() == old(Free()) - {b} && (b in old(Free()) || (fresh(b) && fresh(b.buffer)))
    {
      if pick < |freeQueue| {
        b := freeQueue[pick];
        assert forall c :: c in freeQueue && c != b ==> c in freeQueue[..pick] + freeQueue[pick + 1..] by {
          assert freeQueue == freeQueue[..pick] + [b] + freeQueue[pick + 1..];
        }
        freeQueue := freeQueue[..pick] + freeQueue[pick + 1..];
      } else {
        b := new DataBuffer(capacity);
      }
      live := live + {b};
    }

    /** The deleter of a handle. */
    method ReturnToPool(b: DataBuffer)
      requires Valid() && b in live
      modifies this, b`totalLength, b`headerLength
      ensures Valid()
      ensures live == old(live) - {b} && freeQueue == old(freeQueue) + [b]
    {
      b.Release();
      freeQueue := freeQueue + [b];
      live := live - {b};
    }
  }

  /** The eleven pools. */
  class PoolManager {
    const pools: seq<BufferPool>
    ghost var live: set<DataBuffer>      // the buffers that handles own
    ghost var free: set<DataBuffer>      // those that wait to be handed out
    ghost var arrays: set<array<Byte>>   // and the arrays of the latter
    ghost var made: set<array<Byte>>     // all arrays of all buffers

    /** A live buffer is in one pool, neither it nor its array is free, and no other live buffer has its array. */
    ghost predicate Valid()
      reads this, pools, free
    {
      && |pools| == |CAPACITIES|
      && (forall i :: 0 <= i < |pools| ==> PoolInv(i))
      && (forall b :: b in live ==> exists i :: 0 <= i < |pools| && b in pools[i].live)
      && (forall b :: b in live ==> b !in free && b.buffer in made - arrays && b.Valid())
      && arrays <= made
      && (forall b, c :: b in live && c in live && b != c ==> b.buffer != c.buffer)
    }

    /** Since then buffers in use have stayed so and kept their bytes, and what has become free is new. */
    twostate predicate Grew()
      reads this, live, set b | b in live :: b.buffer
    {
      && old(live) <= live
      && fresh(free - old(free)) && fresh(arrays - old(arrays)) && fresh(made - old(made))
      && forall b :: b in old(live) ==>
           && b.totalLength == old(b.totalLength) && b.headerLength == old(b.headerLength)
           && b.buffer[..] == old(b.buffer[..])
    }

    ghost predicate PoolInv(i: nat)
      requires i < |pools| && |pools| == |CAPACITIES|
      reads this, pools, free
    {
      && pools[i].capacity == CAPACITIES[i]
      && (forall b :: b in pools[i].Free() ==> b in free && b.buffer in arrays)
      && pools[i].Valid()
      && pools[i].live <= live
    }

    constructor ()
      ensures Valid() && live == {} && free == {} && arrays == {} && made == {}
      ensures forall i :: 0 <= i < |pools| ==> fresh(pools[i])
    {
      var eleven: seq<BufferPool> := [];
      for i := 0 to |CAPACITIES|
        invariant |eleven| == i
        invariant forall j :: 0 <= j < i ==>
          && fresh(eleven[j]) && eleven[j].capacity == CAPACITIES[j] && eleven[j].Valid()
          && eleven[j].freeQueue == [] && eleven[j].live == {}
      {
        var pool := new BufferPool(CAPACITIES[i]);
        eleven := eleven + [pool];
      }
      pools := eleven;
      live, free, arrays, made := {}, {}, {}, {};
    }

    /** A buffer larger than size, of the least class there is, out of nobody else's hands; the queue decides which. */
    method Alloc(size: int) returns (b: DataBuffer?)
      requires Valid()
      modifies this, pools
      ensures Valid()
      ensures b == null <==> size >= 65536
      ensures b == null ==> live == old(live) && free == old(free) && arrays == old(arrays) && made == old(made)
      ensures b != null ==>
        && b !in old(live) && live == old(live) + {b} && free == old(free) - {b}
        && arrays == old(arrays) - {b.buffer} && made == old(made) + {b.buffer}
        && ((fresh(b) && fresh(b.buffer)) || (b in old(free) && b.buffer in old(arrays)))
        && b in pools[PoolIndex(size)].live
      ensures b != null ==>
        && b.Valid() && b.allocSize == CAPACITIES[PoolIndex(size)] > size && b.allocSize >= 64
        && b.totalLength == 0 && b.headerLength == 0
    {
      LeastSufficientPool(size);
      var i := PoolIndex(size);
      if i == |CAPACITIES| { return null; }
      PoolsDiffer(i);
      assert PoolInv(i);
      var pick: nat := *;
      b := pools[i].Alloc(pick);
      live, free, arrays, made := live + {b}, free - {b}, arrays - {b.buffer}, made + {b.buffer};
      forall j | 0 <= j < |pools| ensures PoolInv(j) {
        assert old(PoolInv(j));
      }
    }

    /** What the last handle of a buffer of pool i does. */
    method Return(b: DataBuffer, i: nat)
      requires Valid() && i < |pools| && b in pools[i].live
      modifies this, pools, b`totalLength, b`headerLength
      ensures Valid() && live == old(live) - {b} && free == old(free) + {b}
      ensures arrays == old(arrays) + {b.buffer} && made == old(made)
    {
      PoolsDiffer(i);
      assert PoolInv(i);
      pools[i].ReturnToPool(b);
      live, free, arrays := live - {b}, free + {b}, arrays + {b.buffer};
      forall j | 0 <= j < |pools| ensures PoolInv(j) {
        assert old(PoolInv(j));
      }
    }

    /** Pools have nothing in common. */
    lemma PoolsDiffer(i: nat)
      requires Valid() && i < |pools|
      ensures forall j :: 0 <= j < |pools| && j != i ==> pools[j] != pools[i]
      ensures forall j, b, c :: 0 <= j < |pools| && j != i && b in pools[i].Made() && c in pools[j].Made() ==>
                b != c && b.buffer != c.buffer
    {
      LeastSufficientPool(0);
      assert PoolInv(i);
      forall j, b: DataBuffer, c: DataBuffer
        | 0 <= j < |pools| && j != i && b in pools[i].Made() && c in pools[j].Made()
        ensures b != c && b.buffer != c.buffer
      {
        assert PoolInv(j) && CAPACITIES[i] != CAPACITIES[j];
      }
      forall j | 0 <= j < |pools| && j != i ensures pools[j] != pools[i] {
        assert PoolInv(j) && CAPACITIES[i] != CAPACITIES[j];
      }
    }
  }
}
