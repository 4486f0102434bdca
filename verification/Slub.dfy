/** SLUB slabs (crash/types/slab.py, class SlabSLUB): rebuilding the set of free
    objects from a freelist threaded through the objects themselves, in memory that
    may be corrupt. */
module Slub {
  import opened Collections
  import Slab

  type Addr = nat

  /** Pointer-sized words that can be read. */
  type Memory = map<Addr, Addr>

  /** `walked` are the objects met by following the freelist from `head`; `end` is
      the pointer that comes next. */
  ghost predicate Segment(mem: Memory, fpOffset: nat, head: Addr, walked: seq<Addr>, end: Addr) {
    && (forall i :: 0 <= i < |walked| ==> Links(mem, fpOffset, walked[i], After(walked, end, i)))
    && head == if walked == [] then end else walked[0]
  }

  ghost predicate Links(mem: Memory, fpOffset: nat, obj: Addr, next: Addr) {
    obj != 0 && obj + fpOffset in mem && mem[obj + fpOffset] == next
  }

  ghost function After(walked: seq<Addr>, end: Addr, i: nat): Addr
    requires i < |walked|
  {
    if i + 1 < |walked| then walked[i + 1] else end
  }

  /** A freelist with nothing wrong: NULL-terminated, no object twice, as long as
      the slab's counters say, and nothing on it held by a cpu. */
  ghost predicate Healthy(mem: Memory, fpOffset: nat, head: Addr, nrFree: int, cpuFree: set<Addr>, chain: seq<Addr>) {
    && Segment(mem, fpOffset, head, chain, 0)
    && Distinct(chain)
    && |chain| == nrFree
    && !HeldByCpu(chain, cpuFree)
  }

  ghost predicate HeldByCpu(xs: seq<Addr>, cpuFree: set<Addr>) {
    exists i :: 0 <= i < |xs| && xs[i] in cpuFree
  }

  lemma OneFurther(mem: Memory, fpOffset: nat, head: Addr, walked: seq<Addr>, obj: Addr, cpuFree: set<Addr>)
    requires Segment(mem, fpOffset, head, walked, obj) && obj != 0 && obj + fpOffset in mem
    ensures Segment(mem, fpOffset, head, walked + [obj], mem[obj + fpOffset])
    ensures Elements(walked + [obj]) == Elements(walked) + {obj}
    ensures HeldByCpu(walked + [obj], cpuFree) <==> HeldByCpu(walked, cpuFree) || obj in cpuFree
  {
    var all := walked + [obj];
    assert all[|walked|] == obj;
    assert forall i :: 0 <= i < |walked| ==> all[i] == walked[i];
  }

  /** What is walked of a NULL-terminated freelist is a prefix of it. */
  lemma {:induction false} WalkedPrefix(mem: Memory, fpOffset: nat, head: Addr, walked: seq<Addr>, end: Addr,
                                        chain: seq<Addr>)
    requires Segment(mem, fpOffset, head, walked, end) && Segment(mem, fpOffset, head, chain, 0)
    ensures walked <= chain
    ensures end == 0 ==> |walked| == |chain|
    ensures end != 0 ==> |walked| < |chain| && chain[|walked|] == end
    decreases |walked|
  {
    if walked != [] {
      assert walked[0] == chain[0];
      var next := mem[walked[0] + fpOffset];
      SegmentTail(mem, fpOffset, head, walked, end);
      SegmentTail(mem, fpOffset, head, chain, 0);
      WalkedPrefix(mem, fpOffset, next, walked[1..], end, chain[1..]);
    }
  }

  lemma SegmentTail(mem: Memory, fpOffset: nat, head: Addr, walked: seq<Addr>, end: Addr)
    requires Segment(mem, fpOffset, head, walked, end) && walked != []
    ensures Segment(mem, fpOffset, mem[walked[0] + fpOffset], walked[1..], end)
  {
  }

  lemma SegmentFrom(mem: Memory, fpOffset: nat, head: Addr, walked: seq<Addr>, end: Addr, k: nat)
    requires Segment(mem, fpOffset, head, walked, end) && k < |walked|
    ensures Segment(mem, fpOffset, walked[k], walked[k..], end)
  {
    forall i | 0 <= i < |walked| - k ensures Links(mem, fpOffset, walked[k..][i], After(walked[k..], end, i)) {
      assert Links(mem, fpOffset, walked[k + i], After(walked, end, k + i));
    }
  }

  /** A freelist that reaches NULL meets no object twice: from there the two would
      have gone on alike. */
  lemma TerminatedDistinct(mem: Memory, fpOffset: nat, head: Addr, chain: seq<Addr>)
    requires Segment(mem, fpOffset, head, chain, 0)
    ensures Distinct(chain)
  {
    forall i, j | 0 <= i < j < |chain| ensures chain[i] != chain[j] {
      if chain[i] == chain[j] {
        SegmentFrom(mem, fpOffset, head, chain, 0, i);
        SegmentFrom(mem, fpOffset, head, chain, 0, j);
        WalkedPrefix(mem, fpOffset, chain[i], chain[i..], 0, chain[j..]);
      }
    }
  }

  ghost predicate HasHealthy(mem: Memory, fpOffset: nat, head: Addr, nrFree: int, cpuFree: set<Addr>) {
    exists chain: seq<Addr> :: Healthy(mem, fpOffset, head, nrFree, cpuFree, chain)
  }

  /** `free` holds the objects of a healthy freelist. */
  ghost predicate FreeIs(mem: Memory, fpOffset: nat, head: Addr, nrFree: int, cpuFree: set<Addr>, free: set<Addr>) {
    exists chain: seq<Addr> :: Healthy(mem, fpOffset, head, nrFree, cpuFree, chain) && free == Elements(chain)
  }

  /** The walk reached NULL: the freelist is what was walked. */
  lemma EndedAtNull(mem: Memory, fpOffset: nat, head: Addr, walked: seq<Addr>, nrFree: int, cpuFree: set<Addr>)
    requires Segment(mem, fpOffset, head, walked, 0)
    ensures HasHealthy(mem, fpOffset, head, nrFree, cpuFree) <==>
              |Elements(walked)| == nrFree && !HeldByCpu(walked, cpuFree)
    ensures HasHealthy(mem, fpOffset, head, nrFree, cpuFree) ==>
              FreeIs(mem, fpOffset, head, nrFree, cpuFree, Elements(walked))
  {
    TerminatedDistinct(mem, fpOffset, head, walked);
    ElementCount(walked);
    forall chain: seq<Addr> | Healthy(mem, fpOffset, head, nrFree, cpuFree, chain) ensures chain == walked {
      WalkedPrefix(mem, fpOffset, head, walked, 0, chain);
    }
    if |Elements(walked)| == nrFree && !HeldByCpu(walked, cpuFree) {
      assert Healthy(mem, fpOffset, head, nrFree, cpuFree, walked);
    }
  }

  /** The walk stopped short of NULL, at its limit or at an unreadable link. */
  lemma EndedShort(mem: Memory, fpOffset: nat, head: Addr, walked: seq<Addr>, next: Addr,
                   nrFree: int, cpuFree: set<Addr>)
    requires Segment(mem, fpOffset, head, walked, next) && next != 0
    requires |walked| >= nrFree || next + fpOffset !in mem
    ensures !HasHealthy(mem, fpOffset, head, nrFree, cpuFree)
  {
    forall chain: seq<Addr> | Healthy(mem, fpOffset, head, nrFree, cpuFree, chain) ensures false {
      WalkedPrefix(mem, fpOffset, head, walked, next, chain);
    }
  }

  class SlabSLUB {
    const freelist: Addr
    const nrObjects: nat
    const nrInuse: nat
    const fpOffset: nat
    const base: Addr        // of the first object, past the left red zone
    const size: nat         // of a slot
    var free: set<Addr>
    var error: bool

    constructor (freelist: Addr, nrObjects: nat, nrInuse: nat, fpOffset: nat, base: Addr, size: nat)
      ensures this.freelist == freelist && this.nrObjects == nrObjects && this.nrInuse == nrInuse
      ensures this.fpOffset == fpOffset && this.base == base && this.size == size && free == {} && !error
    {
      this.freelist, this.nrObjects, this.nrInuse, this.fpOffset := freelist, nrObjects, nrInuse, fpOffset;
      this.base, this.size := base, size;
      free, error := {}, false;
    }

    /** The loop: follows the freelist up to its end, its limit or its first
        unreadable link. */
    method Follow(mem: Memory, cpuFree: set<Addr>) returns (fault: bool, ghost walked: seq<Addr>, ghost next: Addr)
      requires free == {}
      modifies this
      ensures Segment(mem, fpOffset, freelist, walked, next)
      ensures fault ==> next != 0 && next + fpOffset !in mem
      ensures !fault && next != 0 ==> error && |walked| == nrObjects
      ensures !fault ==> free == Elements(walked)
      ensures fault ==> free == Elements(walked) + {next} && |walked| < nrObjects
      ensures |walked| <= nrObjects
      ensures error <==> old(error) || HeldByCpu(walked, cpuFree) || (!fault && next != 0)
    {
      var link := freelist;
      var nrFree := 0;
      walked, next, fault := [], freelist, false;
      while link != 0
        invariant link == next && Segment(mem, fpOffset, freelist, walked, next)
        invariant nrFree == |walked| <= nrObjects && free == Elements(walked)
        invariant error <==> old(error) || HeldByCpu(walked, cpuFree)
        decreases nrObjects - nrFree
      {
        nrFree := nrFree + 1;
        if nrFree > nrObjects {
          error := true;
          return;
        }
        var obj := link;
        free := free + {obj};
        if obj + fpOffset !in mem {
          fault := true;
          return;
        }
        OneFurther(mem, fpOffset, freelist, walked, obj, cpuFree);
        link := mem[obj + fpOffset];
        if obj in cpuFree {
          error := true;
        }
        walked, next := walked + [obj], link;
      }
    }

    /** How far the freelist of this slab can be followed: through `walked` to `next`,
        which is NULL, past the slab's number of objects, or unreadable. */
    ghost predicate Walks(mem: Memory, walked: seq<Addr>, next: Addr) {
      && Segment(mem, fpOffset, freelist, walked, next) && |walked| <= nrObjects
      && (next == 0 || |walked| == nrObjects || next + fpOffset !in mem)
    }

    /** `_do_populate_free`; `fault` is the exception raised by an unreadable link.
        Apart from errors flagged earlier, the walk ends without complaint exactly
        for a healthy freelist, and then `free` holds its objects. */
    method PopulateFree(mem: Memory, cpuFree: set<Addr>) returns (fault: bool)
      modifies this
      ensures fault || error <==> old(error) || !HasHealthy(mem, fpOffset, freelist, nrObjects - nrInuse, cpuFree)
      ensures !fault && !error ==> FreeIs(mem, fpOffset, freelist, nrObjects - nrInuse, cpuFree, free)
      ensures exists walked: seq<Addr>, next: Addr ::
                && Walks(mem, walked, next)
                && (fault <==> next != 0 && |walked| < nrObjects)
                && free == (if fault then Elements(walked) + {next} else Elements(walked))
                && (error <==>
                      || old(error) || HeldByCpu(walked, cpuFree)
                      || (!fault && (next != 0 || |free| != nrObjects - nrInuse)))
    {
      free := {};
      ghost var walked, next;
      fault, walked, next := Follow(mem, cpuFree);
      assert Walks(mem, walked, next);
      if next != 0 {
        EndedShort(mem, fpOffset, freelist, walked, next, nrObjects - nrInuse, cpuFree);
      } else {
        EndedAtNull(mem, fpOffset, freelist, walked, nrObjects - nrInuse, cpuFree);
      }
      if fault {
        return;
      }
      if |free| != nrObjects - nrInuse {
        error := true;
      }
    }

    /** `get_allocated_objects`: the objects neither on the freelist nor held by a cpu,
        lowest first.  If the freelist was rebuilt without complaint and stays inside
        the slab, they are as many as are in use less those a cpu holds. */
    method GetAllocatedObjects(cpuFree: set<Addr>) returns (objs: seq<Addr>)
      requires 1 <= size
      ensures Slab.Ascending(objs)
      ensures Elements(objs) == Slab.Grid(base, size, nrObjects) - free - cpuFree
      ensures free <= Slab.Grid(base, size, nrObjects) && |free| == nrObjects - nrInuse && free !! cpuFree ==>
                |objs| == nrInuse - |cpuFree * Slab.Grid(base, size, nrObjects)|
    {
      objs := [];
      var i := 0;
      while i < nrObjects
        invariant 0 <= i <= nrObjects
        invariant Slab.Ascending(objs) && forall x :: x in objs ==> x < Slab.Slot(base, size, i)
        invariant Elements(objs) == Slab.Grid(base, size, i) - free - cpuFree
      {
        var obj := base + i * size;
        Slab.GridNext(base, size, i);
        Slab.NextSlot(base, size, i);
        if obj !in free && obj !in cpuFree {
          Slab.AppendLarger(objs, obj);
          objs := objs + [obj];
        }
        i := i + 1;
      }
      ghost var grid := Slab.Grid(base, size, nrObjects);
      if free <= grid && |free| == nrObjects - nrInuse && free !! cpuFree {
        Slab.Accounting(base, size, nrObjects, nrInuse, free, cpuFree, objs);
      }
    }
  }

  /** After an error-free walk the count applies. */
  lemma HealthyCounts(mem: Memory, fpOffset: nat, head: Addr, nrFree: int, cpuFree: set<Addr>, free: set<Addr>)
    requires FreeIs(mem, fpOffset, head, nrFree, cpuFree, free)
    ensures |free| == nrFree && free !! cpuFree
  {
    var chain: seq<Addr> :| Healthy(mem, fpOffset, head, nrFree, cpuFree, chain) && free == Elements(chain);
    ElementCount(chain);
  }
}
