/** `DeferredBufferAllocator` (src/core/utilities/allocator.h:30-41, src/core/data/allocator.cc):
    hands out 16-byte-aligned buffers of one memory kind and tracks each live buffer by its
    start address until it is deallocated or the allocator is destroyed. */
module DeferredAllocators {

  /** `size_t` on a 64-bit target. */
  const SizeMax: int := 0xFFFF_FFFF_FFFF_FFFF
  type SizeT = x: int | 0 <= x <= SizeMax

  /** The memory kinds of the execution engine; only the default is named by the allocator. */
  datatype MemoryKind = SystemMem | ZeroCopyMem | FrameBufferMem | OtherMem(code: int)

  /** A start address; 0 is the null pointer. */
  type Ptr = nat
  const Null: Ptr := 0

  /** A `ByteBuffer`: its start address, its size in bytes and the memory it lives in. */
  datatype Buffer = Buffer(ptr: Ptr, size: SizeT, kind: MemoryKind)

  /** `(bytes + 15) / 16 * 16` in `size_t` arithmetic: the addition wraps modulo 2^64. */
  function AlignedSize(bytes: SizeT): SizeT
  {
    (bytes + 15) % (SizeMax + 1) / 16 * 16
  }

  /** Without wrap-around the size is rounded up to the next multiple of 16. */
  lemma AlignedSizeRoundsUp(bytes: SizeT)
    requires bytes <= SizeMax - 15
    ensures AlignedSize(bytes) % 16 == 0
    ensures bytes <= AlignedSize(bytes) < bytes + 16
  {
    assert (bytes + 15) % (SizeMax + 1) == bytes + 15;
    var q := (bytes + 15) / 16;
    assert q * 16 <= bytes + 15 < q * 16 + 16;
  }

  /** Every size is a multiple of 16; a request within 15 bytes of `SIZE_MAX` wraps to 0. */
  lemma AlignedSizeWraps(bytes: SizeT)
    ensures AlignedSize(bytes) % 16 == 0
    ensures bytes > SizeMax - 15 ==> AlignedSize(bytes) == 0
  {
    if bytes > SizeMax - 15 {
      assert (bytes + 15) % (SizeMax + 1) == bytes + 15 - (SizeMax + 1);
    }
  }

  class DeferredBufferAllocator {
    var targetKind: MemoryKind
    var buffers: map<Ptr, Buffer>
    /** The buffers destroyed so far, in order: the calls to `ByteBuffer::destroy`. */
    var destroyed: seq<Buffer>

    /** Each tracked buffer is keyed by its own start address, which is not null, and has an
        aligned size. */
    ghost predicate Valid()
      reads this
    {
      Null !in buffers
      && forall p :: p in buffers ==> buffers[p].ptr == p && buffers[p].size % 16 == 0
    }

    /** `DeferredBufferAllocator() = default`: system memory, no buffers. */
    constructor Default()
      ensures Valid() && targetKind == SystemMem && buffers == map[] && destroyed == []
    {
      targetKind := SystemMem;
      buffers := map[];
      destroyed := [];
    }

    /** `DeferredBufferAllocator(kind)`: only the memory kind is set. */
    constructor (kind: MemoryKind)
      ensures Valid() && targetKind == kind && buffers == map[] && destroyed == []
    {
      targetKind := kind;
      buffers := map[];
      destroyed := [];
    }

    /** `allocate(bytes)`: null for zero bytes; otherwise a buffer of the aligned size in the
        target memory, whose start address `created` is supplied by the engine's
        `create_buffer` and is not one already tracked. */
    method Allocate(bytes: SizeT, created: Ptr) returns (p: Ptr)
      requires Valid() && created != Null && created !in buffers
      modifies this`buffers
      ensures Valid()
      ensures bytes == 0 ==> p == Null && buffers == old(buffers)
      ensures bytes > 0 ==> p == created && buffers == old(buffers)[created := Buffer(created, AlignedSize(bytes), targetKind)]
    {
      if bytes == 0 {
        return Null;
      }
      var size := AlignedSize(bytes);
      AlignedSizeWraps(bytes);
      var buffer := Buffer(created, size, targetKind);
      p := buffer.ptr;
      buffers := buffers[p := buffer];
    }

    /** `deallocate(ptr, n)`: a tracked pointer's buffer is untracked and destroyed; any other
        pointer, null included, is ignored, and so is `n`. */
    method Deallocate(ptr: Ptr, n: SizeT)
      requires Valid()
      modifies this`buffers, this`destroyed
      ensures Valid()
      ensures ptr in old(buffers) ==> buffers == old(buffers) - {ptr} && destroyed == old(destroyed) + [old(buffers)[ptr]]
      ensures ptr !in old(buffers) ==> buffers == old(buffers) && destroyed == old(destroyed)
    {
      if ptr !in buffers {
        return;
      }
      var buffer := buffers[ptr];
      buffers := buffers - {ptr};
      destroyed := destroyed + [buffer];
    }

    /** `~DeferredBufferAllocator()`: every tracked buffer is destroyed once, in the table's
        unspecified order, and the table is emptied. */
    method Destroy()
      requires Valid()
      modifies this`buffers, this`destroyed
      ensures Valid() && buffers == map[]
      ensures |destroyed| == |old(destroyed)| + |old(buffers)| && destroyed[..|old(destroyed)|] == old(destroyed)
      ensures forall i :: |old(destroyed)| <= i < |destroyed| ==>
                destroyed[i].ptr in old(buffers) && old(buffers)[destroyed[i].ptr] == destroyed[i]
      ensures forall i, j :: |old(destroyed)| <= i < j < |destroyed| ==> destroyed[i].ptr != destroyed[j].ptr
    {
      var base := |destroyed|;
      var remaining := buffers.Keys;
      while remaining != {}
        invariant remaining <= buffers.Keys && buffers == old(buffers)
        invariant |destroyed| - base + |remaining| == |buffers|
        invariant destroyed[..base] == old(destroyed) && base <= |destroyed|
        invariant forall i :: base <= i < |destroyed| ==>
                    destroyed[i].ptr in buffers && buffers[destroyed[i].ptr] == destroyed[i] && destroyed[i].ptr !in remaining
        invariant forall i, j :: base <= i < j < |destroyed| ==> destroyed[i].ptr != destroyed[j].ptr
        decreases |remaining|
      {
        var p :| p in remaining;
        destroyed := destroyed + [buffers[p]];
        remaining := remaining - {p};
      }
      buffers := map[];
    }
  }

  /** Together the three clauses of `Destroy` say each buffer tracked before is destroyed
      exactly once: every one of them appears among the new entries of the log. */
  lemma DestroyedEach(before: map<Ptr, Buffer>, log: seq<Buffer>)
    requires |log| == |before|
    requires forall i :: 0 <= i < |log| ==> log[i].ptr in before && before[log[i].ptr] == log[i]
    requires forall i, j :: 0 <= i < j < |log| ==> log[i].ptr != log[j].ptr
    ensures forall p :: p in before ==> exists i :: 0 <= i < |log| && log[i] == before[p]
  {
    var ptrs := set i | 0 <= i < |log| :: log[i].ptr;
    assert ptrs <= before.Keys;
    DistinctCard(log);
    assert |before.Keys| == |before|;
    assert before.Keys * ptrs == ptrs;
    assert |before.Keys - ptrs| == |before.Keys| - |ptrs|;
    assert before.Keys - ptrs == {};
    forall p | p in before ensures exists i :: 0 <= i < |log| && log[i] == before[p] {
      assert p in ptrs;
      var i :| 0 <= i < |log| && log[i].ptr == p;
      assert log[i] == before[p];
    }
  }

  /** Distinct start addresses: as many addresses as buffers. */
  lemma {:induction false} DistinctCard(log: seq<Buffer>)
    requires forall i, j :: 0 <= i < j < |log| ==> log[i].ptr != log[j].ptr
    ensures |set i | 0 <= i < |log| :: log[i].ptr| == |log|
  {
    if log != [] {
      var n := |log| - 1;
      var init := log[..n];
      DistinctCard(init);
      var s := set i | 0 <= i < n :: init[i].ptr;
      var t := set i | 0 <= i < |log| :: log[i].ptr;
      assert t == s + {log[n].ptr} by {
        forall x | x in t ensures x in s + {log[n].ptr} {
          var i :| 0 <= i < |log| && log[i].ptr == x;
          if i < n {
            assert init[i].ptr == x;
          }
        }
        forall x | x in s ensures x in t {
          var i :| 0 <= i < n && init[i].ptr == x;
          assert log[i].ptr == x;
        }
      }
      assert log[n].ptr !in s;
    }
  }
}
