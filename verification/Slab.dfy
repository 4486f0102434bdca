/** SLAB slabs (crash/types/slab.py, class SlabSLAB): free objects from indices that
    may be corrupt, and the checks and object accounting built on them. */
module Slab {
  import opened Collections

  type Addr = nat

  const BUFCTL_END: nat := 0xffff_ffff

  // ----- The grid of objects -----

  /** The address of object i in a slab of equal-sized slots. */
  function Slot(base: Addr, size: nat, i: nat): Addr {
    base + i * size
  }

  lemma {:induction false} SlotOrder(base: Addr, size: nat, i: nat, j: nat)
    requires 1 <= size && i < j
    ensures Slot(base, size, i) + size <= Slot(base, size, j)
  {
    if i + 1 < j {
      SlotOrder(base, size, i, j - 1);
    }
    assert j * size == (j - 1) * size + size;
  }

  ghost function Grid(base: Addr, size: nat, n: nat): set<Addr> {
    set i | 0 <= i < n :: Slot(base, size, i)
  }

  lemma {:induction false} GridSize(base: Addr, size: nat, n: nat)
    requires 1 <= size
    ensures |Grid(base, size, n)| == n
  {
    if n > 0 {
      GridSize(base, size, n - 1);
      assert Grid(base, size, n) == Grid(base, size, n - 1) + {Slot(base, size, n - 1)};
      forall i | 0 <= i < n - 1 ensures Slot(base, size, i) != Slot(base, size, n - 1) {
        SlotOrder(base, size, i, n - 1);
      }
    }
  }

  /** `find_obj` of both allocators; `pad` is SLUB's left red zone, 0 for SLAB. */
  function FindObj(base: Addr, size: nat, n: nat, pad: nat, a: Addr): Option<Addr>
    requires 1 <= size
  {
    if a < base then None
    else
      var i := (a - base) / size;
      if i >= n then None else Some(base + pad + i * size)
  }

  /** An address is resolved exactly when it lies in some object's slot, and then
      to that object, which is the only one. */
  lemma FindObjIsSlot(base: Addr, size: nat, n: nat, pad: nat, a: Addr, i: nat)
    requires 1 <= size
    ensures i < n && Slot(base, size, i) <= a < Slot(base, size, i) + size <==>
              FindObj(base, size, n, pad, a) == Some(Slot(base + pad, size, i)) && i < n
  {
    if a >= base {
      var q := (a - base) / size;
      assert q * size <= a - base < q * size + size by {
        assert a - base == q * size + (a - base) % size;
      }
      if i < q {
        SlotOrder(base, size, i, q);
        SlotOrder(base + pad, size, i, q);
      } else if q < i {
        SlotOrder(base, size, q, i);
        SlotOrder(base + pad, size, q, i);
      }
    }
  }

  /** ... and every other address, below the objects or past them, to none. */
  lemma FindObjMeaning(base: Addr, size: nat, n: nat, pad: nat, a: Addr)
    requires 1 <= size
    ensures FindObj(base, size, n, pad, a).None? <==> a < base || a >= base + n * size
    ensures FindObj(base, size, n, pad, a).Some? ==>
              exists i :: 0 <= i < n && base + i * size <= a < base + i * size + size
                          && FindObj(base, size, n, pad, a).value == base + pad + i * size
  {
    if a >= base {
      var i := (a - base) / size;
      assert i * size <= a - base < i * size + size by {
        assert a - base == i * size + (a - base) % size;
      }
      if i < n {
        Products(i + 1, n, size);
        assert i * size + size == (i + 1) * size;
      } else {
        Products(n, i, size);
      }
    }
  }

  lemma Products(i: nat, j: nat, size: nat)
    requires i <= j
    ensures i * size <= j * size
  {
    assert j * size == i * size + (j - i) * size;
  }

  // ----- Free-index lists -----

  ghost predicate Below(xs: seq<nat>, n: nat) {
    forall i :: 0 <= i < |xs| ==> xs[i] < n
  }

  ghost function SlotSet(base: Addr, size: nat, xs: seq<nat>): set<Addr> {
    set i | i in xs :: Slot(base, size, i)
  }

  lemma {:induction false} SlotSetSize(base: Addr, size: nat, xs: seq<nat>)
    requires 1 <= size && Distinct(xs)
    ensures |SlotSet(base, size, xs)| == |xs|
  {
    if xs != [] {
      SlotSetSize(base, size, xs[1..]);
      assert SlotSet(base, size, xs) == SlotSet(base, size, xs[1..]) + {Slot(base, size, xs[0])};
      forall x | x in xs[1..] ensures Slot(base, size, x) != Slot(base, size, xs[0]) {
        SlotOrder(base, size, if x < xs[0] then x else xs[0], if x < xs[0] then xs[0] else x);
      }
    }
  }

  /** Distinct indices below n are at most n. */
  lemma {:induction false} DistinctBelow(xs: seq<nat>, n: nat)
    requires Distinct(xs) && Below(xs, n)
    ensures |xs| <= n
  {
    SlotSetSize(0, 1, xs);
    GridSize(0, 1, n);
    var s, g := SlotSet(0, 1, xs), Grid(0, 1, n);
    forall a | a in s ensures a in g {
      var i :| i in xs && Slot(0, 1, i) == a;
    }
    SubsetSize(s, g);
  }

  /** The indices met by following bufctl entries from `first`; `end` comes next. */
  ghost predicate Follows(bufctl: seq<nat>, first: nat, xs: seq<nat>, end: nat) {
    && Below(xs, |bufctl|)
    && (forall i :: 0 <= i < |xs| ==> xs[i] != BUFCTL_END && Entry(bufctl, xs[i]) == After(xs, end, i))
    && first == if xs == [] then end else xs[0]
  }

  ghost function Entry(bufctl: seq<nat>, i: nat): nat {
    if i < |bufctl| then bufctl[i] else BUFCTL_END
  }

  ghost function After(xs: seq<nat>, end: nat, i: nat): nat
    requires i < |xs|
  {
    if i + 1 < |xs| then xs[i + 1] else end
  }

  /** A free list with nothing wrong: indices of the slab's own objects, ending at
      the end marker. */
  ghost predicate GoodChain(bufctl: seq<nat>, first: nat, xs: seq<nat>) {
    Follows(bufctl, first, xs, BUFCTL_END)
  }

  ghost predicate HasGoodChain(bufctl: seq<nat>, first: nat) {
    exists xs: seq<nat> :: GoodChain(bufctl, first, xs)
  }

  /** The entries lead to one of the n objects whose own entry cannot be read. */
  ghost predicate RunsOut(bufctl: seq<nat>, first: nat, n: nat) {
    exists xs: seq<nat>, f: nat :: Follows(bufctl, first, xs, f) && Unread(bufctl, f, n)
  }

  ghost predicate Unread(bufctl: seq<nat>, f: nat, n: nat) {
    |bufctl| <= f < n && f != BUFCTL_END
  }

  /** There is no entry to follow at `end`. */
  ghost predicate Final(bufctl: seq<nat>, end: nat) {
    end == BUFCTL_END || end >= |bufctl|
  }

  lemma {:induction false} FollowedPrefix(bufctl: seq<nat>, first: nat, xs: seq<nat>, end: nat, ys: seq<nat>, last: nat)
    requires Follows(bufctl, first, xs, end) && Follows(bufctl, first, ys, last) && Final(bufctl, last)
    ensures xs <= ys
    ensures Final(bufctl, end) ==> xs == ys && end == last
    ensures !Final(bufctl, end) ==> |xs| < |ys| && ys[|xs|] == end
    decreases |xs|
  {
    if xs != [] {
      assert Entry(bufctl, xs[0]) == After(xs, end, 0);
      assert ys != [] && Entry(bufctl, ys[0]) == After(ys, last, 0);
      FollowsTail(bufctl, first, xs, end);
      FollowsTail(bufctl, first, ys, last);
      FollowedPrefix(bufctl, Entry(bufctl, xs[0]), xs[1..], end, ys[1..], last);
    }
  }

  lemma FollowsTail(bufctl: seq<nat>, first: nat, xs: seq<nat>, end: nat)
    requires Follows(bufctl, first, xs, end) && xs != []
    ensures Follows(bufctl, Entry(bufctl, xs[0]), xs[1..], end)
  {
    forall i | 0 <= i < |xs| - 1 ensures Entry(bufctl, xs[1..][i]) == After(xs[1..], end, i) {
      assert Entry(bufctl, xs[i + 1]) == After(xs, end, i + 1);
    }
  }

  lemma FollowsFrom(bufctl: seq<nat>, first: nat, xs: seq<nat>, end: nat, k: nat)
    requires Follows(bufctl, first, xs, end) && k < |xs|
    ensures Follows(bufctl, xs[k], xs[k..], end)
  {
    forall i | 0 <= i < |xs| - k
      ensures xs[k..][i] < |bufctl| && xs[k..][i] != BUFCTL_END
      ensures Entry(bufctl, xs[k..][i]) == After(xs[k..], end, i)
    {
      assert Entry(bufctl, xs[k + i]) == After(xs, end, k + i);
    }
  }

  /** A walk that comes to an end met no index twice: from there the two would have
      gone on alike. */
  lemma EndedDistinct(bufctl: seq<nat>, first: nat, xs: seq<nat>, last: nat)
    requires Follows(bufctl, first, xs, last) && Final(bufctl, last)
    ensures Distinct(xs)
  {
    forall i, j | 0 <= i < j < |xs| ensures xs[i] != xs[j] {
      if xs[i] == xs[j] {
        FollowsFrom(bufctl, first, xs, last, i);
        FollowsFrom(bufctl, first, xs, last, j);
        FollowedPrefix(bufctl, xs[i], xs[i..], last, xs[j..], last);
      }
    }
  }

  /** The walk came to an end: it is the only one that does. */
  lemma WalkEnded(bufctl: seq<nat>, first: nat, xs: seq<nat>, last: nat, n: nat)
    requires Follows(bufctl, first, xs, last) && Final(bufctl, last)
    ensures HasGoodChain(bufctl, first) <==> last == BUFCTL_END
    ensures forall ys: seq<nat> :: GoodChain(bufctl, first, ys) ==> ys == xs
    ensures RunsOut(bufctl, first, n) <==> Unread(bufctl, last, n)
  {
    forall ys: seq<nat> | GoodChain(bufctl, first, ys) ensures ys == xs && last == BUFCTL_END {
      FollowedPrefix(bufctl, first, xs, last, ys, BUFCTL_END);
    }
    forall ys: seq<nat>, f: nat | Follows(bufctl, first, ys, f) && Unread(bufctl, f, n) ensures f == last {
      FollowedPrefix(bufctl, first, xs, last, ys, f);
    }
    assert last == BUFCTL_END ==> GoodChain(bufctl, first, xs);
  }

  /** The walk came to an index it has seen: it would never end. */
  lemma WalkCycles(bufctl: seq<nat>, first: nat, xs: seq<nat>, f: nat, n: nat)
    requires Follows(bufctl, first, xs, f) && f in xs
    ensures !HasGoodChain(bufctl, first) && !RunsOut(bufctl, first, n)
  {
    forall ys: seq<nat>, last: nat | Follows(bufctl, first, ys, last) && Final(bufctl, last) ensures false {
      FollowedPrefix(bufctl, first, xs, f, ys, last);
      EndedDistinct(bufctl, first, ys, last);
    }
    assert forall ys: seq<nat> :: GoodChain(bufctl, first, ys) ==> Follows(bufctl, first, ys, BUFCTL_END);
  }

  /** The walk came to an index that is not an object's, or to one it has seen. */
  lemma WalkBroken(bufctl: seq<nat>, first: nat, xs: seq<nat>, f: nat, n: nat)
    requires Follows(bufctl, first, xs, f) && f != BUFCTL_END && |bufctl| <= n
    requires f >= n || f in xs
    ensures !HasGoodChain(bufctl, first) && !RunsOut(bufctl, first, n)
  {
    if f in xs {
      WalkCycles(bufctl, first, xs, f, n);
    } else {
      WalkEnded(bufctl, first, xs, f, n);
    }
  }

  /** How far the walk gets: through the indices xs, none twice, to f, where it has
      to stop. */
  ghost predicate Walks(bufctl: seq<nat>, first: nat, n: nat, xs: seq<nat>, f: nat) {
    && Follows(bufctl, first, xs, f) && Distinct(xs)
    && (f == BUFCTL_END || f >= |bufctl| || f in xs)
  }

  /** The free objects then: those of xs, and also f's if only its entry is missing. */
  ghost function Freed(base: Addr, size: nat, n: nat, bufctl: seq<nat>, xs: seq<nat>, f: nat): set<Addr> {
    SlotSet(base, size, if Unread(bufctl, f, n) then xs + [f] else xs)
  }

  /** The walk stops in one place only. */
  lemma OneWalk(bufctl: seq<nat>, first: nat, n: nat, xs: seq<nat>, f: nat, ys: seq<nat>, g: nat)
    requires Walks(bufctl, first, n, xs, f) && Walks(bufctl, first, n, ys, g) && |xs| <= |ys|
    ensures xs == ys && f == g
  {
    WalkPrefix(bufctl, first, xs, f, ys, g);
  }

  lemma {:induction false} WalkPrefix(bufctl: seq<nat>, first: nat, xs: seq<nat>, f: nat, ys: seq<nat>, g: nat)
    requires Follows(bufctl, first, xs, f) && Follows(bufctl, first, ys, g) && |xs| <= |ys|
    ensures xs <= ys && f == if |xs| < |ys| then ys[|xs|] else g
    decreases |xs|
  {
    if xs != [] {
      assert Entry(bufctl, xs[0]) == After(xs, f, 0) && Entry(bufctl, ys[0]) == After(ys, g, 0);
      FollowsTail(bufctl, first, xs, f);
      FollowsTail(bufctl, first, ys, g);
      WalkPrefix(bufctl, Entry(bufctl, xs[0]), xs[1..], f, ys[1..], g);
    }
  }

  lemma SlotInjective(base: Addr, size: nat, xs: seq<nat>, f: nat)
    requires 1 <= size
    ensures Slot(base, size, f) in SlotSet(base, size, xs) <==> f in xs
  {
    forall x | x in xs && x != f ensures Slot(base, size, x) != Slot(base, size, f) {
      SlotOrder(base, size, if x < f then x else f, if x < f then f else x);
    }
  }

  lemma SlotSetMore(base: Addr, size: nat, xs: seq<nat>, f: nat)
    ensures SlotSet(base, size, xs + [f]) == SlotSet(base, size, xs) + {Slot(base, size, f)}
  {
    assert forall i :: i in xs + [f] <==> i in xs || i == f;
  }

  lemma FollowOne(base: Addr, size: nat, bufctl: seq<nat>, first: nat, xs: seq<nat>, f: nat)
    requires Follows(bufctl, first, xs, f) && f < |bufctl| && f != BUFCTL_END && f !in xs && Distinct(xs)
    ensures Follows(bufctl, first, xs + [f], bufctl[f]) && Distinct(xs + [f])
    ensures SlotSet(base, size, xs + [f]) == SlotSet(base, size, xs) + {Slot(base, size, f)}
    ensures |xs| < |bufctl|
  {
    var ys := xs + [f];
    forall i | 0 <= i < |ys| ensures ys[i] != BUFCTL_END && Entry(bufctl, ys[i]) == After(ys, bufctl[f], i) {
      if i < |xs| {
        assert Entry(bufctl, xs[i]) == After(xs, f, i);
      }
    }
    assert forall i :: i in ys <==> i in xs || i == f;
    DistinctBelow(ys, |bufctl|);
  }

  ghost function SlotsBelow(base: Addr, size: nat, n: nat, xs: seq<nat>): set<Addr> {
    set i | i in xs && i < n :: Slot(base, size, i)
  }

  lemma SlotsBelowOne(base: Addr, size: nat, n: nat, xs: seq<nat>, f: nat)
    requires 1 <= size
    ensures SlotsBelow(base, size, n, xs + [f]) ==
              SlotsBelow(base, size, n, xs) + if f < n then {Slot(base, size, f)} else {}
    ensures Below(xs + [f], n) <==> Below(xs, n) && f < n
    ensures Distinct(xs + [f]) <==> Distinct(xs) && f !in xs
    ensures f < n ==> (Slot(base, size, f) in SlotsBelow(base, size, n, xs) <==> f in xs)
  {
    var ys := xs + [f];
    assert forall i :: i in ys <==> i in xs || i == f;
    assert forall i :: 0 <= i < |xs| ==> ys[i] == xs[i];
    assert ys[|xs|] == f;
    forall x | x in xs && x != f ensures Slot(base, size, x) != Slot(base, size, f) {
      SlotOrder(base, size, if x < f then x else f, if x < f then f else x);
    }
  }

  // ----- Accounting -----

  ghost predicate Ascending(xs: seq<Addr>) {
    forall i, j :: 0 <= i < j < |xs| ==> xs[i] < xs[j]
  }

  /** The free objects are as many as the slab's counter leaves, and none of them
      is held in an array cache. */
  ghost predicate Settled(base: Addr, size: nat, n: nat, inuse: nat, free: set<Addr>, cached: set<Addr>) {
    && free <= Grid(base, size, n)
    && inuse + |free| == n
    && free !! cached * Grid(base, size, n)
  }

  /** Free, cached and allocated objects of a settled slab share its grid out, and
      the allocated ones are those in use less the cached ones. */
  lemma Accounting(base: Addr, size: nat, n: nat, inuse: nat, free: set<Addr>, cached: set<Addr>, objs: seq<Addr>)
    requires 1 <= size && Settled(base, size, n, inuse, free, cached)
    requires Ascending(objs) && Elements(objs) == Grid(base, size, n) - free - cached
    ensures |objs| == inuse - |cached * Grid(base, size, n)|
    ensures free !! cached * Grid(base, size, n) !! Elements(objs)
    ensures free + cached * Grid(base, size, n) + Elements(objs) == Grid(base, size, n)
  {
    var grid := Grid(base, size, n);
    GridSize(base, size, n);
    ElementCount(objs);
    assert grid == free + (cached * grid) + Elements(objs);
    assert |free + (cached * grid)| == |free| + |cached * grid|;
  }

  // ----- The slab object -----

  /** Which list of its node a slab was found on. */
  datatype ListKind = Partial | Full | Free

  predicate Misplaced(kind: ListKind, numFree: nat, maxFree: nat) {
    match kind
    case Free => numFree != maxFree
    case Partial => numFree == 0 || numFree == maxFree
    case Full => numFree > 0
  }

  /** A slab belongs on the free list if all its objects are free, on the full list if
      none is, and on the partial list if some are and some are not. */
  ghost predicate OnWrongList(kind: ListKind, base: Addr, size: nat, n: nat, free: set<Addr>) {
    match kind
    case Free => free != Grid(base, size, n)
    case Full => free != {}
    case Partial => free == {} || free == Grid(base, size, n)
  }

  lemma MisplacedMeaning(kind: ListKind, base: Addr, size: nat, n: nat, free: set<Addr>)
    requires 1 <= size && free <= Grid(base, size, n)
    ensures Misplaced(kind, |free|, n) <==> OnWrongList(kind, base, size, n, free)
  {
    GridSize(base, size, n);
    if |free| == n {
      SameSize(free, Grid(base, size, n));
    }
  }

  lemma SameSize(a: set<Addr>, b: set<Addr>)
    requires a <= b && |a| == |b|
    ensures a == b
  {
    assert b == a + (b - a);
  }

  class SlabSLAB {
    const base: Addr        // s_mem
    const size: nat         // buffer_size
    const nrObjects: nat
    const nrInuse: nat
    var free: set<Addr>
    var populated: bool
    var error: bool
    var misplaced: bool

    ghost predicate Valid()
      reads this
    {
      && 1 <= size
      && free <= Grid(base, size, nrObjects)
      && (misplaced ==> error)
    }

    constructor (base: Addr, size: nat, nrObjects: nat, nrInuse: nat)
      requires 1 <= size
      ensures Valid() && free == {} && !populated && !error && !misplaced
      ensures this.base == base && this.size == size && this.nrObjects == nrObjects && this.nrInuse == nrInuse
    {
      this.base, this.size, this.nrObjects, this.nrInuse := base, size, nrObjects, nrInuse;
      free, populated, error, misplaced := {}, false, false, false;
    }

    /** `__add_free_obj_by_idx`. */
    method AddFree(idx: nat) returns (ok: bool)
      requires Valid()
      modifies this`free, this`error
      ensures ok <==> idx < nrObjects && Slot(base, size, idx) !in old(free)
      ensures free == if ok then old(free) + {Slot(base, size, idx)} else old(free)
      ensures error == (old(error) || !ok)
      ensures free <= Grid(base, size, nrObjects)
    {
      if idx >= nrObjects {
        error := true;
        return false;
      }
      var obj := base + idx * size;
      assert obj == Slot(base, size, idx);
      if obj in free {
        error := true;
        return false;
      }
      free := free + {obj};
      return true;
    }

    /** The bufctl walk of kernels with a separate slab descriptor.  `bufctl` is what
        can be read of the slab's entries; `ok` is false if one is needed that
        cannot be.  The walk reads only the slab's own entries, stops on every
        input, and complains unless the entries lead through some of the slab's
        objects to the end marker. */
    method PopulateFromBufctl(bufctl: seq<nat>, first: nat) returns (ok: bool)
      requires Valid() && free == {} && |bufctl| <= nrObjects
      modifies this
      ensures Valid() && misplaced == old(misplaced)
      ensures ok <==> !RunsOut(bufctl, first, nrObjects)
      ensures populated == (old(populated) || ok)
      ensures error <==> old(error) || (ok && !HasGoodChain(bufctl, first))
      ensures forall xs: seq<nat> :: GoodChain(bufctl, first, xs) ==>
                ok && free == SlotSet(base, size, xs) && |free| == |xs| && Distinct(xs)
      ensures exists xs: seq<nat>, f: nat ::
                Walks(bufctl, first, nrObjects, xs, f) && free == Freed(base, size, nrObjects, bufctl, xs, f)
    {
      var f: nat := first;
      ghost var xs: seq<nat> := [];
      while f != BUFCTL_END
        invariant Valid() && misplaced == old(misplaced) && error == old(error) && populated == old(populated)
        invariant Follows(bufctl, first, xs, f) && Distinct(xs) && free == SlotSet(base, size, xs)
        decreases |bufctl| - |xs|
      {
        SlotInjective(base, size, xs, f);
        var added := AddFree(f);
        if !added {
          WalkBroken(bufctl, first, xs, f, nrObjects);
          assert Walks(bufctl, first, nrObjects, xs, f) && free == Freed(base, size, nrObjects, bufctl, xs, f);
          error, populated := true, true;
          return true;
        }
        if f >= |bufctl| {
          WalkEnded(bufctl, first, xs, f, nrObjects);
          SlotSetMore(base, size, xs, f);
          assert Walks(bufctl, first, nrObjects, xs, f) && free == Freed(base, size, nrObjects, bufctl, xs, f);
          return false;
        }
        FollowOne(base, size, bufctl, first, xs, f);
        xs := xs + [f];
        f := bufctl[f];
      }
      populated := true;
      WalkEnded(bufctl, first, xs, f, nrObjects);
      EndedDistinct(bufctl, first, xs, f);
      SlotSetSize(base, size, xs);
      assert Walks(bufctl, first, nrObjects, xs, f) && free == Freed(base, size, nrObjects, bufctl, xs, f);
      return true;
    }

    /** The index array of kernels that keep it on the page: entries from nr_inuse
        on name the free objects.  Every entry is tried, whatever the others are.
        `freelist` is what can be read of it; `ok` is false if that is not enough. */
    method PopulateFromPage(freelist: seq<nat>) returns (ok: bool)
      requires Valid() && free == {} && |freelist| <= nrObjects
      modifies this
      ensures Valid() && misplaced == old(misplaced)
      ensures ok <==> |freelist| == nrObjects || nrObjects <= nrInuse
      ensures populated == (old(populated) || ok)
      ensures var tail := if nrInuse <= |freelist| then freelist[nrInuse..] else [];
              && free == SlotsBelow(base, size, nrObjects, tail)
              && (error <==> old(error) || !(Below(tail, nrObjects) && Distinct(tail)))
              && (Below(tail, nrObjects) && Distinct(tail) ==> |free| == |tail|)
    {
      ghost var tail: seq<nat> := if nrInuse <= |freelist| then freelist[nrInuse..] else [];
      var i := nrInuse;
      ghost var done: seq<nat> := [];
      ok := true;
      while i < nrObjects
        invariant Valid() && misplaced == old(misplaced) && populated == old(populated)
        invariant nrInuse <= i && (i <= |freelist| || (i == nrInuse && done == tail))
        invariant i <= |freelist| ==> done == freelist[nrInuse..i]
        invariant free == SlotsBelow(base, size, nrObjects, done)
        invariant error <==> old(error) || !(Below(done, nrObjects) && Distinct(done))
      {
        if i >= |freelist| {
          ok := false;
          break;
        }
        SlotsBelowOne(base, size, nrObjects, done, freelist[i]);
        var _ := AddFree(freelist[i]);
        done := done + [freelist[i]];
        i := i + 1;
      }
      assert done == tail;
      if Below(tail, nrObjects) && Distinct(tail) {
        SlotSetSize(base, size, tail);
        assert free == SlotSet(base, size, tail);
      }
      if ok {
        populated := true;
      }
    }

    /** `check`, after the free set has been rebuilt.  What lies outside the slab is
        given: whether the checks of an off-slab descriptor and of the slab's own
        node complain, and for which objects the page checks do. */
    method Check(kind: ListKind, offSlabError: bool, nodeError: bool, pageErrors: set<Addr>, cached: set<Addr>)
      returns (numFree: nat)
      requires Valid() && populated
      modifies this`error, this`misplaced
      ensures Valid() && numFree == |free|
      ensures misplaced <==> old(misplaced) || OnWrongList(kind, base, size, nrObjects, free)
      ensures error <==>
                || old(error) || offSlabError || nodeError
                || OnWrongList(kind, base, size, nrObjects, free)
                || pageErrors * Grid(base, size, nrObjects) != {}
                || !Settled(base, size, nrObjects, nrInuse, free, cached)
    {
      numFree := |free|;
      ghost var grid := Grid(base, size, nrObjects);
      MisplacedMeaning(kind, base, size, nrObjects, free);
      if offSlabError {
        error := true;
      }
      if nrInuse + numFree != nrObjects {
        error := true;
      }
      if Misplaced(kind, numFree, nrObjects) {
        misplaced, error := true, true;
      }
      if nodeError {
        error := true;
      }
      CheckObjects(pageErrors, cached);
      Clashes(free, cached, pageErrors, grid);
    }

    /** The part of `check` that looks at every object. */
    method CheckObjects(pageErrors: set<Addr>, cached: set<Addr>)
      requires Valid()
      modifies this`error
      ensures error <==> old(error) || (free * cached + pageErrors) * Grid(base, size, nrObjects) != {}
    {
      var obj, i := base, 0;
      while i < nrObjects
        invariant 0 <= i <= nrObjects && obj == Slot(base, size, i)
        invariant error <==> old(error) || Suspects(base, size, i, free * cached + pageErrors)
      {
        SuspectNext(base, size, i, free * cached + pageErrors);
        if obj in free && obj in cached {
          error := true;
        }
        if obj in pageErrors {
          error := true;
        }
        NextSlot(base, size, i);
        obj := obj + size;
        i := i + 1;
      }
      SuspectsInGrid(base, size, nrObjects, free * cached + pageErrors);
    }

    /** `get_allocated_objects`: the objects in use, lowest first.  On a slab that
        passed `Check` their number is nr_inuse less the objects in array caches. */
    method GetAllocatedObjects(cached: set<Addr>) returns (objs: seq<Addr>)
      requires Valid() && populated
      ensures Ascending(objs)
      ensures Elements(objs) == Grid(base, size, nrObjects) - free - cached
      ensures Settled(base, size, nrObjects, nrInuse, free, cached) ==>
                && |objs| == nrInuse - |cached * Grid(base, size, nrObjects)|
                && free + cached * Grid(base, size, nrObjects) + Elements(objs) == Grid(base, size, nrObjects)
    {
      objs := [];
      var obj, i := base, 0;
      while i < nrObjects
        invariant 0 <= i <= nrObjects && obj == Slot(base, size, i)
        invariant Ascending(objs) && forall x :: x in objs ==> x < obj
        invariant Elements(objs) == Grid(base, size, i) - free - cached
      {
        GridNext(base, size, i);
        if obj !in free && obj !in cached {
          AppendLarger(objs, obj);
          objs := objs + [obj];
        }
        NextSlot(base, size, i);
        obj := obj + size;
        i := i + 1;
      }
      if Settled(base, size, nrObjects, nrInuse, free, cached) {
        Accounting(base, size, nrObjects, nrInuse, free, cached, objs);
      }
    }
  }

  ghost predicate Suspects(base: Addr, size: nat, n: nat, bad: set<Addr>) {
    exists j :: 0 <= j < n && Slot(base, size, j) in bad
  }

  lemma SuspectNext(base: Addr, size: nat, n: nat, bad: set<Addr>)
    ensures Suspects(base, size, n + 1, bad) <==> Suspects(base, size, n, bad) || Slot(base, size, n) in bad
  {
  }

  lemma SuspectsInGrid(base: Addr, size: nat, n: nat, bad: set<Addr>)
    ensures Suspects(base, size, n, bad) <==> bad * Grid(base, size, n) != {}
  {
    if x :| x in bad * Grid(base, size, n) {
      var j :| 0 <= j < n && Slot(base, size, j) == x;
    }
    if j :| 0 <= j < n && Slot(base, size, j) in bad {
      assert Slot(base, size, j) in bad * Grid(base, size, n);
    }
  }

  lemma Clashes(free: set<Addr>, cached: set<Addr>, bad: set<Addr>, grid: set<Addr>)
    ensures (free * cached + bad) * grid != {} <==> !(free !! cached * grid) || bad * grid != {}
  {
    if x :| x in (free * cached + bad) * grid {
      assert x in bad * grid || (x in free && x in cached * grid);
    }
    if x :| x in bad * grid || (x in free && x in cached * grid) {
      assert x in (free * cached + bad) * grid;
    }
  }

  lemma AppendLarger(xs: seq<Addr>, x: Addr)
    requires Ascending(xs) && forall y :: y in xs ==> y < x
    ensures Ascending(xs + [x]) && Elements(xs + [x]) == Elements(xs) + {x}
  {
    forall i | 0 <= i < |xs| ensures xs[i] < x {
      assert xs[i] in xs;
    }
  }

  lemma NextSlot(base: Addr, size: nat, i: nat)
    ensures Slot(base, size, i + 1) == Slot(base, size, i) + size
  {
  }

  lemma GridNext(base: Addr, size: nat, i: nat)
    ensures Grid(base, size, i + 1) == Grid(base, size, i) + {Slot(base, size, i)}
  {
  }
}
