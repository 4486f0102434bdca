/** The circular-list walker `list_for_each` (crash/types/list.py).

    A dump is a finite map from addresses to list heads; following a pointer to
    an address that is NULL or not in the map is a read error.  Nothing else is
    known about the contents, so links may point anywhere.
 */
module ListWalk {
  import opened Collections

  type Addr = nat

  datatype ListHead = ListHead(next: Addr, prev: Addr)

  type Memory = map<Addr, ListHead>

  /** How a walk ends: quietly, or with one of the source's exceptions. */
  datatype Outcome =
    | Done          // the walk came back to the head, every back link intact
    | BrokenLink    // CorruptListError, raised at the end: some back link was wrong
    | NullLink      // CorruptListError: a NULL pointer was met
    | Cycle         // ListCycleError
    | Unreadable    // BufferError

  predicate Readable(mem: Memory, a: Addr) {
    a != 0 && a in mem
  }

  /** The memory as seen by a walk in the given direction: the `prev` and
      `next` links trade places when walking in reverse. */
  function Oriented(mem: Memory, reverse: bool): Memory {
    if reverse then map a | a in mem :: ListHead(mem[a].prev, mem[a].next) else mem
  }

  // ----- The orbit of the head -----

  /** The address reached from `head` by following `i` forward links; the orbit
      stays put once it reaches an address that cannot be read. */
  ghost function At(mem: Memory, head: Addr, i: nat): Addr {
    if i == 0 then head
    else
      var p := At(mem, head, i - 1);
      if Readable(mem, p) then mem[p].next else p
  }

  /** Positions 1..n of the orbit are readable, none is the head, no address
      occurs twice. */
  ghost predicate Simple(mem: Memory, head: Addr, n: nat) {
    && (forall i :: 1 <= i <= n ==> Readable(mem, At(mem, head, i)) && At(mem, head, i) != head)
    && (forall i, j :: 1 <= i < j <= n ==> At(mem, head, i) != At(mem, head, j))
  }

  ghost predicate Repeats(mem: Memory, head: Addr, i: nat) {
    exists m :: 1 <= m < i && At(mem, head, m) == At(mem, head, i)
  }

  /** A walk that visits positions 1..n in turn has to stop at position n+1. */
  ghost predicate StopsAfter(mem: Memory, head: Addr, n: nat) {
    var a := At(mem, head, n + 1);
    a == head || !Readable(mem, a) || Repeats(mem, head, n + 1)
  }

  ghost function Positions(mem: Memory, head: Addr, n: nat): (s: seq<Addr>)
    ensures |s| == n && forall i :: 0 <= i < n ==> s[i] == At(mem, head, i + 1)
  {
    seq(n, i requires 0 <= i => At(mem, head, i + 1))
  }

  /** A simple stretch of the orbit is no longer than the memory is large. */
  lemma SimpleFits(mem: Memory, head: Addr, n: nat)
    requires Simple(mem, head, n)
    ensures n <= |mem|
  {
    var s := Positions(mem, head, n);
    ElementCount(s);
    SubsetSize(Elements(s), mem.Keys);
  }

  /** The length of the longest simple stretch that starts the orbit, searched
      for from n on. */
  ghost function TrailFrom(mem: Memory, head: Addr, n: nat): nat
    requires Simple(mem, head, n)
    decreases |mem| - n
  {
    if StopsAfter(mem, head, n) then n
    else
      assert Simple(mem, head, n + 1);
      SimpleFits(mem, head, n + 1);
      TrailFrom(mem, head, n + 1)
  }

  ghost function TrailLength(mem: Memory, head: Addr): nat {
    TrailFrom(mem, head, 0)
  }

  lemma {:induction false} TrailFromStops(mem: Memory, head: Addr, n: nat)
    requires Simple(mem, head, n)
    ensures Simple(mem, head, TrailFrom(mem, head, n)) && StopsAfter(mem, head, TrailFrom(mem, head, n))
    decreases |mem| - n
  {
    if !StopsAfter(mem, head, n) {
      assert Simple(mem, head, n + 1);
      SimpleFits(mem, head, n + 1);
      TrailFromStops(mem, head, n + 1);
    }
  }

  /** `TrailLength` is the one number of positions after which a walk has to
      stop and before which it need not. */
  lemma TrailSpec(mem: Memory, head: Addr)
    ensures Simple(mem, head, TrailLength(mem, head)) && StopsAfter(mem, head, TrailLength(mem, head))
    ensures forall n :: Simple(mem, head, n) && StopsAfter(mem, head, n) ==> n == TrailLength(mem, head)
  {
    TrailFromStops(mem, head, 0);
  }

  /** The back link of position i does not lead to position i-1. */
  ghost predicate BrokenAt(mem: Memory, head: Addr, i: nat)
    requires 1 <= i
  {
    var a := At(mem, head, i);
    Readable(mem, a) && mem[a].prev != At(mem, head, i - 1)
  }

  ghost predicate BrokenBefore(mem: Memory, head: Addr, n: nat) {
    exists i :: 1 <= i < n && BrokenAt(mem, head, i)
  }

  // ----- What a walk should do -----

  ghost predicate ReturnsToHead(mem: Memory, head: Addr) {
    Readable(mem, head) && At(mem, head, TrailLength(mem, head) + 1) == head
  }

  ghost predicate RunsIntoCycle(mem: Memory, head: Addr) {
    Readable(mem, head) && Repeats(mem, head, TrailLength(mem, head) + 1)
  }

  /** How a walk should end, judged from the shape of the orbit alone. */
  ghost function Verdict(mem: Memory, head: Addr): Outcome {
    var n := TrailLength(mem, head);
    if head == 0 then NullLink
    else if !Readable(mem, head) then Unreadable
    else if At(mem, head, n + 1) == 0 then NullLink
    else if RunsIntoCycle(mem, head) then Cycle
    else if !ReturnsToHead(mem, head) then Unreadable
    else if BrokenBefore(mem, head, n + 1) then BrokenLink
    else Done
  }

  /** The one input family on which the tortoise-and-hare mode differs: the list
      does return to its head, but its first node has a wrong back link. */
  ghost predicate FalseAlarm(mem: Memory, head: Addr) {
    && ReturnsToHead(mem, head)
    && TrailLength(mem, head) >= 1
    && BrokenAt(mem, head, 1)
  }

  // ----- Shape of the orbit past its simple stretch -----

  lemma {:induction false} Periodic(mem: Memory, head: Addr, m: nat, period: nat, i: nat)
    requires At(mem, head, m) == At(mem, head, m + period)
    requires m <= i
    ensures At(mem, head, i + period) == At(mem, head, i)
    decreases i
  {
    if m < i {
      Periodic(mem, head, m, period, i - 1);
      assert At(mem, head, i) == (var p := At(mem, head, i - 1); if Readable(mem, p) then mem[p].next else p);
      assert (i + period) - 1 == (i - 1) + period;
    }
  }

  lemma {:induction false} PeriodicMany(mem: Memory, head: Addr, m: nat, period: nat, i: nat, c: nat)
    requires At(mem, head, m) == At(mem, head, m + period)
    requires m <= i
    ensures At(mem, head, i + c * period) == At(mem, head, i)
    decreases c
  {
    if c > 0 {
      PeriodicMany(mem, head, m, period, i, c - 1);
      assert i + c * period == (i + (c - 1) * period) + period;
      assert (c - 1) * period >= 0;
      Periodic(mem, head, m, period, i + (c - 1) * period);
    }
  }

  lemma {:induction false} Stuck(mem: Memory, head: Addr, m: nat, i: nat)
    requires !Readable(mem, At(mem, head, m)) && m <= i
    ensures At(mem, head, i) == At(mem, head, m)
    decreases i
  {
    if m < i {
      Stuck(mem, head, m, i - 1);
    }
  }

  /** On a ring of n nodes and a head, two positions hold the same address only
      if they are a whole turn apart. */
  lemma RingDistinct(mem: Memory, head: Addr, n: nat, i: nat, j: nat)
    requires Readable(mem, head) && Simple(mem, head, n) && At(mem, head, n + 1) == head
    requires 1 <= i <= n && i < j <= 2 * n + 1
    ensures At(mem, head, i) == At(mem, head, j) <==> j == i + n + 1
    ensures Readable(mem, At(mem, head, j))
  {
    Periodic(mem, head, 0, n + 1, i);
    if n + 1 <= j {
      Periodic(mem, head, 0, n + 1, j - n - 1);
      assert At(mem, head, j) == At(mem, head, j - n - 1);
    }
  }

  /** On a chain that ends at an unreadable address no position recurs. */
  lemma ChainDistinct(mem: Memory, head: Addr, n: nat, i: nat, j: nat)
    requires Simple(mem, head, n) && !Readable(mem, At(mem, head, n + 1))
    requires 1 <= i <= n && i < j
    ensures At(mem, head, i) != At(mem, head, j)
  {
    if n + 1 <= j {
      Stuck(mem, head, n + 1, j);
    }
  }

  /** A walk that enters a cycle from outside meets a wrong back link by the
      time it is about to revisit a node: the entry node has two predecessors. */
  lemma CycleEntryBroken(mem: Memory, head: Addr, n: nat, m: nat)
    requires Readable(mem, head) && Simple(mem, head, n)
    requires 1 <= m <= n && At(mem, head, m) == At(mem, head, n + 1)
    ensures BrokenBefore(mem, head, n + 2)
  {
    assert At(mem, head, m - 1) != At(mem, head, n);
    assert BrokenAt(mem, head, m) || BrokenAt(mem, head, n + 1);
  }

  lemma {:induction false} CycleReadable(mem: Memory, head: Addr, n: nat, m: nat, i: nat)
    requires Readable(mem, head) && Simple(mem, head, n)
    requires 1 <= m <= n && At(mem, head, m) == At(mem, head, n + 1)
    ensures Readable(mem, At(mem, head, i))
    ensures 1 <= i ==> At(mem, head, i) != head
    decreases i
  {
    if n < i {
      var period := n + 1 - m;
      CycleReadable(mem, head, n, m, i - period);
      assert m + period == n + 1;
      Periodic(mem, head, m, period, i - period);
    }
  }

  /** Where the hare, started at position k, must have met the tortoise. */
  lemma MeetingPoint(k: nat, m: nat, period: nat) returns (j: nat, c: nat)
    requires 1 <= period
    ensures k <= j && m <= j && j < (if k < m then m else k) + period
    ensures j - k + 1 == c * period
  {
    var lo := if k < m then m else k;
    c := (lo - k) / period + 1;
    j := k + c * period - 1;
  }

  /** If the hare started at position k has never met the tortoise at positions
      k..i-1 of a walk into a cycle, the walk has not gone far. */
  lemma HareCatches(mem: Memory, head: Addr, n: nat, m: nat, k: nat, i: nat)
    requires Readable(mem, head) && Simple(mem, head, n)
    requires 1 <= m <= n && At(mem, head, m) == At(mem, head, n + 1)
    requires 1 <= k <= n + 1
    requires forall j :: k <= j < i ==> !Meets(mem, head, k, j)
    ensures i <= 2 * n
  {
    var period := n + 1 - m;
    var j, c := MeetingPoint(k, m, period);
    assert m + period == n + 1;
    PeriodicMany(mem, head, m, period, j, c);
    assert 2 * j - k + 1 == j + c * period;
    assert Meets(mem, head, k, j);
    assert j <= 2 * n - 1 || j == 2 * n;
  }

  /** With the tortoise at position j and a hare that started at position k, one
      of the hare's two steps lands on the tortoise. */
  ghost predicate Meets(mem: Memory, head: Addr, k: nat, j: nat)
    requires k <= j
  {
    || At(mem, head, 2 * j - k + 1) == At(mem, head, j)
    || At(mem, head, 2 * j - k + 2) == At(mem, head, j)
  }

  // ----- The walk -----

  /** The hare's turn: two steps forward from position p of the orbit, each
      compared with the tortoise's node (list.py lines 118-130).  An unreadable
      link only turns the hunt off. */
  method AdvanceHare(mem: Memory, ghost head: Addr, ghost p: nat, start: Addr, node: Addr)
    returns (fast: Option<Addr>, met: bool)
    requires start == At(mem, head, p) && Readable(mem, node)
    ensures met <==> At(mem, head, p + 1) == node || At(mem, head, p + 2) == node
    ensures !met ==> fast == if Readable(mem, At(mem, head, p)) && Readable(mem, At(mem, head, p + 1))
                             then Some(At(mem, head, p + 2)) else None
  {
    fast, met := Some(start), false;
    assert At(mem, head, p + 2) == At(mem, head, (p + 1) + 1);
    for step := 0 to 2
      invariant !met && fast == Some(At(mem, head, p + step))
      invariant step >= 1 ==> Readable(mem, At(mem, head, p)) && At(mem, head, p + 1) != node
      invariant step == 2 ==> Readable(mem, At(mem, head, p + 1)) && At(mem, head, p + 2) != node
    {
      if !Readable(mem, fast.value) {
        fast := None;
        return;
      }
      fast := Some(mem[fast.value].next);
      if fast.value == node {
        met := true;
        return;
      }
    }
  }

  ghost predicate DeadEnd(mem: Memory, head: Addr) {
    Readable(mem, head) && !RunsIntoCycle(mem, head) && !ReturnsToHead(mem, head)
  }

  /** The hunt with a hare that was started at position k, at the first wrong
      back link (or later, on a list that ends in an unreadable node), before
      the tortoise leaves position i. */
  ghost predicate Hunting(mem: Memory, head: Addr, k: nat, i: nat) {
    && 1 <= k <= i && BrokenAt(mem, head, k)
    && (!BrokenBefore(mem, head, k) || DeadEnd(mem, head))
    && forall j :: k <= j < i ==> !Meets(mem, head, k, j)
  }

  /** What the loop knows when the tortoise arrives at position i. */
  ghost predicate Walking(mem: Memory, head: Addr, exactCycles: bool, i: nat, k: nat, fast: Option<Addr>) {
    && Readable(mem, head)
    && 1 <= i
    && At(mem, head, i) != 0
    && (exactCycles || !RunsIntoCycle(mem, head) ==> i <= TrailLength(mem, head) + 1)
    && i <= 2 * TrailLength(mem, head) + 1
    && (exactCycles ==> fast.None?)
    && (fast.Some? ==> k < i && Hunting(mem, head, k, i) && fast.value == At(mem, head, 2 * i - k))
    && (fast.None? && !exactCycles && BrokenBefore(mem, head, i) ==> DeadEnd(mem, head))
  }

  lemma HuntOnRing(mem: Memory, head: Addr, k: nat, i: nat)
    requires ReturnsToHead(mem, head)
    requires 1 <= k <= i <= TrailLength(mem, head)
    ensures Meets(mem, head, k, i) <==> k == 1 && i == TrailLength(mem, head)
    ensures Readable(mem, At(mem, head, 2 * i - k)) && Readable(mem, At(mem, head, 2 * i - k + 1))
  {
    var n := TrailLength(mem, head);
    TrailSpec(mem, head);
    RingDistinct(mem, head, n, i, 2 * i - k + 1);
    RingDistinct(mem, head, n, i, 2 * i - k + 2);
    if i < 2 * i - k {
      RingDistinct(mem, head, n, i, 2 * i - k);
    }
  }

  lemma HuntOnChain(mem: Memory, head: Addr, k: nat, i: nat)
    requires DeadEnd(mem, head)
    requires 1 <= k <= i <= TrailLength(mem, head)
    ensures !Meets(mem, head, k, i)
  {
    var n := TrailLength(mem, head);
    TrailSpec(mem, head);
    ChainDistinct(mem, head, n, i, 2 * i - k + 1);
    ChainDistinct(mem, head, n, i, 2 * i - k + 2);
  }

  lemma HuntInCycle(mem: Memory, head: Addr, k: nat, i: nat)
    requires RunsIntoCycle(mem, head) && Hunting(mem, head, k, i)
    ensures Readable(mem, At(mem, head, 2 * i - k)) && Readable(mem, At(mem, head, 2 * i - k + 1))
    ensures i <= 2 * TrailLength(mem, head)
    ensures !Meets(mem, head, k, i) ==> i < 2 * TrailLength(mem, head)
  {
    var n := TrailLength(mem, head);
    TrailSpec(mem, head);
    var m :| 1 <= m < n + 1 && At(mem, head, m) == At(mem, head, n + 1);
    CycleReadable(mem, head, n, m, 2 * i - k);
    CycleReadable(mem, head, n, m, 2 * i - k + 1);
    CycleEntryBroken(mem, head, n, m);
    assert Repeats(mem, head, n + 1);
    assert k <= n + 1;
    HareCatches(mem, head, n, m, k, i);
    if !Meets(mem, head, k, i) {
      HareCatches(mem, head, n, m, k, i + 1);
    }
  }

  /** The three shapes exclude one another, and each says where a walk gets to. */
  lemma Shapes(mem: Memory, head: Addr)
    requires Readable(mem, head)
    ensures !(ReturnsToHead(mem, head) && RunsIntoCycle(mem, head))
    ensures DeadEnd(mem, head) <==> !Readable(mem, At(mem, head, TrailLength(mem, head) + 1))
    ensures RunsIntoCycle(mem, head) ==> TrailLength(mem, head) >= 1
  {
    TrailSpec(mem, head);
  }

  /** A walk into a cycle never meets the head or an unreadable node. */
  lemma CycleStays(mem: Memory, head: Addr, i: nat)
    requires RunsIntoCycle(mem, head) && 1 <= i
    ensures Readable(mem, At(mem, head, i)) && At(mem, head, i) != head
  {
    var n := TrailLength(mem, head);
    TrailSpec(mem, head);
    var m :| 1 <= m < n + 1 && At(mem, head, m) == At(mem, head, n + 1);
    CycleReadable(mem, head, n, m, i);
  }

  /** The tortoise, at position i, is about to follow a link of a readable node
      that is not the head; `fast` is the hare before its turn. */
  lemma HuntStep(mem: Memory, head: Addr, k: nat, i: nat)
    requires Readable(mem, head) && Hunting(mem, head, k, i)
    requires !RunsIntoCycle(mem, head) ==> i <= TrailLength(mem, head)
    ensures DeadEnd(mem, head) ==> !Meets(mem, head, k, i)
    ensures ReturnsToHead(mem, head) ==> (Meets(mem, head, k, i) <==> k == 1 && i == TrailLength(mem, head))
    ensures !DeadEnd(mem, head) ==>
              Readable(mem, At(mem, head, 2 * i - k)) && Readable(mem, At(mem, head, 2 * i - k + 1))
    ensures i <= 2 * TrailLength(mem, head)
    ensures RunsIntoCycle(mem, head) && !Meets(mem, head, k, i) ==> i < 2 * TrailLength(mem, head)
  {
    TrailSpec(mem, head);
    Shapes(mem, head);
    if RunsIntoCycle(mem, head) {
      HuntInCycle(mem, head, k, i);
    } else if ReturnsToHead(mem, head) {
      HuntOnRing(mem, head, k, i);
    } else {
      HuntOnChain(mem, head, k, i);
    }
  }

  /** Back at the head: the ring is complete, and a hare started at its first
      node would have raised the alarm. */
  lemma BackAtHead(mem: Memory, head: Addr, exactCycles: bool, i: nat, k: nat, fast: Option<Addr>)
    requires Walking(mem, head, exactCycles, i, k, fast)
    requires At(mem, head, i) == head
    ensures i == TrailLength(mem, head) + 1
    ensures Verdict(mem, head) == if BrokenBefore(mem, head, i) then BrokenLink else Done
    ensures !RunsIntoCycle(mem, head)
    ensures !exactCycles ==> !FalseAlarm(mem, head)
  {
    TrailSpec(mem, head);
    Shapes(mem, head);
    if RunsIntoCycle(mem, head) {
      CycleStays(mem, head, i);
    } else if FalseAlarm(mem, head) && !exactCycles {
      assert BrokenBefore(mem, head, i);
      HuntOnRing(mem, head, 1, i - 1);
    }
  }

  /** At a node that cannot be read. */
  lemma AtUnreadable(mem: Memory, head: Addr, exactCycles: bool, i: nat, k: nat, fast: Option<Addr>)
    requires Walking(mem, head, exactCycles, i, k, fast)
    requires !Readable(mem, At(mem, head, i))
    ensures i == TrailLength(mem, head) + 1
    ensures Verdict(mem, head) == Unreadable && !RunsIntoCycle(mem, head) && !FalseAlarm(mem, head)
  {
    TrailSpec(mem, head);
    Shapes(mem, head);
    if RunsIntoCycle(mem, head) {
      CycleStays(mem, head, i);
    }
  }

  /** At a node seen before, which only visited-set mode notices. */
  lemma AtRepeated(mem: Memory, head: Addr, i: nat, k: nat, fast: Option<Addr>)
    requires Walking(mem, head, true, i, k, fast)
    requires Repeats(mem, head, i)
    ensures i == TrailLength(mem, head) + 1 && Verdict(mem, head) == Cycle
  {
    TrailSpec(mem, head);
    Shapes(mem, head);
    assert i > TrailLength(mem, head);
  }

  /** At a readable node other than the head, not seen before if that matters,
      before the hare has moved. */
  ghost predicate Leaving(mem: Memory, head: Addr, exactCycles: bool, i: nat, k: nat, fast: Option<Addr>) {
    && Readable(mem, head)
    && 1 <= i <= 2 * TrailLength(mem, head) + 1
    && (exactCycles || !RunsIntoCycle(mem, head) ==> i <= TrailLength(mem, head))
    && Readable(mem, At(mem, head, i)) && At(mem, head, i) != head
    && (exactCycles ==> fast.None?)
    && (fast.Some? ==> Hunting(mem, head, k, i) && fast.value == At(mem, head, 2 * i - k))
    && (fast.None? && !exactCycles && BrokenBefore(mem, head, i + 1) ==> DeadEnd(mem, head))
  }

  lemma VisitBound(mem: Memory, head: Addr, exactCycles: bool, i: nat, k: nat, fast: Option<Addr>)
    requires Walking(mem, head, exactCycles, i, k, fast)
    requires Readable(mem, At(mem, head, i)) && At(mem, head, i) != head
    requires exactCycles ==> !Repeats(mem, head, i)
    ensures exactCycles || !RunsIntoCycle(mem, head) ==> i <= TrailLength(mem, head)
  {
    TrailSpec(mem, head);
    Shapes(mem, head);
  }

  /** The hare, once it has been started at a wrong back link if need be. */
  lemma VisitHunt(mem: Memory, head: Addr, i: nat, k: nat, fast: Option<Addr>, k': nat, fast': Option<Addr>)
    requires Walking(mem, head, false, i, k, fast) && Readable(mem, At(mem, head, i))
    requires if BrokenAt(mem, head, i) && fast.None?
             then k' == i && fast' == Some(At(mem, head, i))
             else k' == k && fast' == fast
    ensures fast'.Some? ==> Hunting(mem, head, k', i) && fast'.value == At(mem, head, 2 * i - k')
    ensures fast'.None? && BrokenBefore(mem, head, i + 1) ==> DeadEnd(mem, head)
  {
    BrokenNow(mem, head, i);
  }

  lemma Visit(mem: Memory, head: Addr, exactCycles: bool, i: nat, k: nat, fast: Option<Addr>,
              k': nat, fast': Option<Addr>)
    requires Walking(mem, head, exactCycles, i, k, fast)
    requires Readable(mem, At(mem, head, i)) && At(mem, head, i) != head
    requires exactCycles ==> !Repeats(mem, head, i)
    requires if BrokenAt(mem, head, i) && !exactCycles && fast.None?
             then k' == i && fast' == Some(At(mem, head, i))
             else k' == k && fast' == fast
    ensures Leaving(mem, head, exactCycles, i, k', fast')
  {
    VisitBound(mem, head, exactCycles, i, k, fast);
    if !exactCycles {
      VisitHunt(mem, head, i, k, fast, k', fast');
    }
  }

  /** The hare's turn, when it misses the tortoise. */
  lemma Leave(mem: Memory, head: Addr, exactCycles: bool, i: nat, k: nat, fast: Option<Addr>, fast': Option<Addr>)
    requires Leaving(mem, head, exactCycles, i, k, fast)
    requires fast.None? ==> fast'.None?
    requires fast.Some? ==>
               && !Meets(mem, head, k, i)
               && var a := At(mem, head, 2 * i - k);
                  var b := At(mem, head, 2 * i - k + 1);
                  fast' == if Readable(mem, a) && Readable(mem, b) then Some(At(mem, head, 2 * i - k + 2)) else None
    ensures At(mem, head, i + 1) != 0 ==> Walking(mem, head, exactCycles, i + 1, k, fast')
    ensures At(mem, head, i + 1) == 0 ==>
              Verdict(mem, head) == NullLink && i == TrailLength(mem, head) && DeadEnd(mem, head)
  {
    TrailSpec(mem, head);
    Shapes(mem, head);
    if fast.Some? {
      HuntStep(mem, head, k, i);
    }
    if RunsIntoCycle(mem, head) {
      CycleStays(mem, head, i + 1);
      BrokenInCycle(mem, head, i + 1);
    }
  }

  /** A walk into a cycle without a wrong back link so far is still on its simple
      stretch, or one step past it. */
  lemma BrokenInCycle(mem: Memory, head: Addr, i: nat)
    requires RunsIntoCycle(mem, head)
    ensures !BrokenBefore(mem, head, i) ==> i <= TrailLength(mem, head) + 1
  {
    var n := TrailLength(mem, head);
    TrailSpec(mem, head);
    var m :| 1 <= m < n + 1 && At(mem, head, m) == At(mem, head, n + 1);
    CycleEntryBroken(mem, head, n, m);
    var j :| 1 <= j < n + 2 && BrokenAt(mem, head, j);
    assert i > n + 1 ==> BrokenBefore(mem, head, i);
  }

  /** The hare's turn, when it lands on the tortoise. */
  lemma Caught(mem: Memory, head: Addr, i: nat, k: nat, fast: Option<Addr>)
    requires Leaving(mem, head, false, i, k, fast) && fast.Some?
    requires Meets(mem, head, k, i)
    ensures if RunsIntoCycle(mem, head) then Verdict(mem, head) == Cycle
            else FalseAlarm(mem, head) && i == TrailLength(mem, head)
    ensures i <= 2 * TrailLength(mem, head)
  {
    TrailSpec(mem, head);
    Shapes(mem, head);
    HuntStep(mem, head, k, i);
  }

  lemma SeenBefore(mem: Memory, head: Addr, i: nat)
    requires 1 <= i
    ensures Repeats(mem, head, i) <==> At(mem, head, i) in Positions(mem, head, i - 1)
  {
    var s := Positions(mem, head, i - 1);
    assert forall m :: 1 <= m < i ==> s[m - 1] == At(mem, head, m);
  }

  lemma BrokenNow(mem: Memory, head: Addr, i: nat)
    requires 1 <= i
    ensures BrokenBefore(mem, head, i + 1) <==> BrokenBefore(mem, head, i) || BrokenAt(mem, head, i)
  {
  }

  /** One visit: compare the back link, start the hare at a wrong one, and give
      the hare its turn (list.py lines 92-130). */
  method Inspect(mem: Memory, ghost head: Addr, exactCycles: bool, prev: Addr, node: Addr, slow: Option<Addr>,
                 ghost i: nat, ghost k: nat)
    returns (broken: bool, fast: Option<Addr>, met: bool, ghost k': nat)
    requires Walking(mem, head, exactCycles, i, k, slow)
    requires node == At(mem, head, i) && prev == At(mem, head, i - 1)
    requires Readable(mem, node) && node != head
    requires exactCycles ==> !Repeats(mem, head, i)
    ensures broken == BrokenAt(mem, head, i)
    ensures met ==>
              && !exactCycles && i <= 2 * TrailLength(mem, head)
              && if RunsIntoCycle(mem, head) then Verdict(mem, head) == Cycle
                 else FalseAlarm(mem, head) && i == TrailLength(mem, head)
    ensures !met && At(mem, head, i + 1) != 0 ==> Walking(mem, head, exactCycles, i + 1, k', fast)
    ensures !met && At(mem, head, i + 1) == 0 ==>
              Verdict(mem, head) == NullLink && i == TrailLength(mem, head) && DeadEnd(mem, head)
  {
    fast, met, k' := slow, false, k;
    broken := prev != mem[node].prev;
    if broken && !exactCycles && fast.None? {
      fast, k' := Some(node), i;
    }
    Visit(mem, head, exactCycles, i, k, slow, k', fast);
    ghost var hare := fast;
    if fast.Some? {
      fast, met := AdvanceHare(mem, head, 2 * i - k', fast.value, node);
    }
    if met {
      Caught(mem, head, i, k', hare);
    } else {
      Leave(mem, head, exactCycles, i, k', hare, fast);
    }
  }

  /** What a walk yields: the orbit in order, all of its simple stretch unless a
      hare cuts it short or lets it run on inside a cycle, and never more than
      twice that. */
  ghost predicate Yields(mem: Memory, head: Addr, exactCycles: bool, walked: seq<Addr>) {
    && walked == Positions(mem, head, |walked|)
    && |walked| <= 2 * TrailLength(mem, head)
    && (exactCycles || !RunsIntoCycle(mem, head) ==> |walked| == TrailLength(mem, head))
  }

  /** Outside the one case, a walk yields no node twice and never the head, and
      no walk yields more than twice as many nodes as there are in memory. */
  lemma YieldsOnce(mem: Memory, head: Addr, exactCycles: bool, walked: seq<Addr>)
    requires Yields(mem, head, exactCycles, walked)
    ensures |walked| <= 2 * |mem|
    ensures exactCycles || !RunsIntoCycle(mem, head) ==>
              head !in walked && forall i, j :: 0 <= i < j < |walked| ==> walked[i] != walked[j]
  {
    TrailSpec(mem, head);
    SimpleFits(mem, head, TrailLength(mem, head));
  }

  /** The walk proper, from a head that can be read (list.py lines 76-141). */
  method Walk(mem: Memory, head: Addr, exactCycles: bool) returns (yielded: seq<Addr>, outcome: Outcome)
    requires Readable(mem, head)
    ensures outcome == if !exactCycles && FalseAlarm(mem, head) then Cycle else Verdict(mem, head)
    ensures Yields(mem, head, exactCycles, yielded)
  {
    yielded := [];
    var nxt := mem[head].next;
    var prev := head;
    assert At(mem, head, 1) == nxt;
    if nxt == 0 {
      TrailSpec(mem, head);
      return yielded, NullLink;
    }
    var node := nxt;
    var fast: Option<Addr> := None;
    var visited: set<Addr> := {};
    var pending := false;
    ghost var i, k := 1, 0;
    while node != head
      invariant Walking(mem, head, exactCycles, i, k, fast)
      invariant node == At(mem, head, i) && prev == At(mem, head, i - 1)
      invariant yielded == Positions(mem, head, i - 1)
      invariant pending <==> BrokenBefore(mem, head, i)
      invariant exactCycles ==> visited == set a | a in yielded
      decreases 2 * TrailLength(mem, head) + 1 - i
    {
      SeenBefore(mem, head, i);
      if exactCycles {
        if node in visited {
          AtRepeated(mem, head, i, k, fast);
          return yielded, Cycle;
        }
        visited := visited + {node};
      }
      if !Readable(mem, node) {
        AtUnreadable(mem, head, exactCycles, i, k, fast);
        return yielded, Unreadable;
      }
      var broken, met;
      broken, fast, met, k := Inspect(mem, head, exactCycles, prev, node, fast, i, k);
      BrokenNow(mem, head, i);
      pending := pending || broken;
      nxt := mem[node].next;
      yielded := yielded + [node];
      assert yielded == Positions(mem, head, i);
      if met {
        return yielded, Cycle;
      }
      prev := node;
      if nxt == 0 {
        return yielded, NullLink;
      }
      node := nxt;
      i := i + 1;
    }
    BackAtHead(mem, head, exactCycles, i, k, fast);
    outcome := if pending then BrokenLink else Done;
  }

  /** `list_for_each`: every way a walk can end, and all it yields, for every
      memory, direction and cycle-detection mode. */
  method ListForEach(mem: Memory, head: Addr, includeHead: bool, reverse: bool, exactCycles: bool)
    returns (yielded: seq<Addr>, outcome: Outcome)
    ensures outcome == ListOutcome(mem, head, reverse, exactCycles)
    ensures head == 0 ==> yielded == []
    ensures head != 0 && !Readable(mem, head) ==> yielded == if includeHead then [head] else []
    ensures Readable(mem, head) && includeHead ==> 1 <= |yielded| && yielded[0] == head
    ensures Readable(mem, head) ==>
              Yields(Oriented(mem, reverse), head, exactCycles, if includeHead then yielded[1..] else yielded)
  {
    if head == 0 {
      return [], NullLink;
    }
    var view := Oriented(mem, reverse);
    yielded := if includeHead then [head] else [];
    if !Readable(view, head) {
      return yielded, Unreadable;
    }
    var walked;
    walked, outcome := Walk(view, head, exactCycles);
    yielded := yielded + walked;
    assert (if includeHead then yielded[1..] else yielded) == walked;
  }

  ghost function ListOutcome(mem: Memory, head: Addr, reverse: bool, exactCycles: bool): Outcome {
    var view := Oriented(mem, reverse);
    if !exactCycles && FalseAlarm(view, head) then Cycle else Verdict(view, head)
  }

  // ----- What the walk's result means -----

  /** Links can be followed n times from the head without coming back to it. */
  ghost predicate Follows(mem: Memory, head: Addr, n: nat) {
    && (forall i :: 0 <= i < n ==> Readable(mem, At(mem, head, i)))
    && (forall i :: 1 <= i < n ==> At(mem, head, i) != head)
  }

  /** ... and then no further: position n is the head again or cannot be read. */
  ghost predicate Ends(mem: Memory, head: Addr, n: nat) {
    Follows(mem, head, n) && (!Readable(mem, At(mem, head, n)) || (n >= 1 && At(mem, head, n) == head))
  }

  ghost predicate ClosesAt(mem: Memory, head: Addr, n: nat) {
    Follows(mem, head, n) && n >= 1 && At(mem, head, n) == head
  }

  /** Every node of the ring points back to the one before it. */
  ghost predicate RingIntact(mem: Memory, head: Addr, n: nat)
    requires Follows(mem, head, n)
  {
    forall i :: 1 <= i < n ==> mem[At(mem, head, i)].prev == At(mem, head, i - 1)
  }

  lemma OneEnd(mem: Memory, head: Addr, m: nat, n: nat)
    requires Ends(mem, head, m) && Ends(mem, head, n)
    ensures m == n
  {
  }

  /** Where the links end, if they do. */
  lemma TrailEnds(mem: Memory, head: Addr)
    ensures !Readable(mem, head) ==> Ends(mem, head, 0)
    ensures Readable(mem, head) && !RunsIntoCycle(mem, head) ==> Ends(mem, head, TrailLength(mem, head) + 1)
    ensures RunsIntoCycle(mem, head) ==>
              forall i :: 1 <= i ==> Readable(mem, At(mem, head, i)) && At(mem, head, i) != head
  {
    TrailSpec(mem, head);
    if RunsIntoCycle(mem, head) {
      forall i | 1 <= i ensures Readable(mem, At(mem, head, i)) && At(mem, head, i) != head {
        CycleStays(mem, head, i);
      }
    }
  }

  /** The verdict read off the links themselves: a NULL pointer, an address that
      cannot be read, links that go on for ever without either and without coming
      back, or a ring, in which some back link is wrong or none is. */
  lemma VerdictMeaning(mem: Memory, head: Addr)
    ensures Verdict(mem, head) == NullLink <==> exists n: nat :: Ends(mem, head, n) && At(mem, head, n) == 0
    ensures Verdict(mem, head) == Unreadable <==>
              exists n: nat :: Ends(mem, head, n) && At(mem, head, n) != 0 && At(mem, head, n) !in mem
    ensures Verdict(mem, head) == Cycle <==>
              Readable(mem, head) && forall i :: 1 <= i ==> Readable(mem, At(mem, head, i)) && At(mem, head, i) != head
    ensures Verdict(mem, head) == Done <==>
              exists n: nat :: ClosesAt(mem, head, n) && RingIntact(mem, head, n)
    ensures Verdict(mem, head) == BrokenLink <==>
              exists n: nat :: ClosesAt(mem, head, n) && !RingIntact(mem, head, n)
  {
    TrailEnds(mem, head);
    var n := if Readable(mem, head) then TrailLength(mem, head) + 1 else 0;
    if RunsIntoCycle(mem, head) {
      assert forall m: nat :: !Ends(mem, head, m);
      assert forall m: nat :: !ClosesAt(mem, head, m);
    } else {
      assert Ends(mem, head, n);
      forall m: nat | Ends(mem, head, m) ensures m == n {
        OneEnd(mem, head, m, n);
      }
      assert forall m: nat :: ClosesAt(mem, head, m) ==> Ends(mem, head, m);
      RingBackLinks(mem, head, n);
    }
  }

  lemma RingBackLinks(mem: Memory, head: Addr, n: nat)
    ensures ClosesAt(mem, head, n) ==> (BrokenBefore(mem, head, n) <==> !RingIntact(mem, head, n))
  {
    if ClosesAt(mem, head, n) {
      forall i | 1 <= i < n
        ensures BrokenAt(mem, head, i) <==>
                  At(mem, head, i) in mem && mem[At(mem, head, i)].prev != At(mem, head, i - 1)
      {
        assert Readable(mem, At(mem, head, i));
      }
    }
  }

  /** The node after the head does not point back to the head. */
  predicate FirstBackLinkWrong(mem: Memory, head: Addr) {
    head in mem && mem[head].next in mem && mem[mem[head].next].prev != head
  }

  /** The one case of the tortoise-and-hare mode, likewise. */
  lemma FalseAlarmMeaning(mem: Memory, head: Addr)
    ensures FalseAlarm(mem, head) <==>
              FirstBackLinkWrong(mem, head) && exists n: nat :: ClosesAt(mem, head, n) && n >= 2
  {
    TrailEnds(mem, head);
    assert At(mem, head, 0) == head;
    assert Readable(mem, head) ==> At(mem, head, 1) == mem[head].next;
    if n: nat :| ClosesAt(mem, head, n) && n >= 2 {
      assert Readable(mem, At(mem, head, 0)) && Readable(mem, At(mem, head, 1));
      if !RunsIntoCycle(mem, head) {
        OneEnd(mem, head, n, TrailLength(mem, head) + 1);
      }
    }
    if ReturnsToHead(mem, head) {
      TrailSpec(mem, head);
      assert ClosesAt(mem, head, TrailLength(mem, head) + 1);
    }
  }

  /** Following a link never leaves readable memory. */
  ghost predicate Closed(mem: Memory) {
    forall a :: Readable(mem, a) ==> Readable(mem, mem[a].next)
  }

  lemma {:induction false} ClosedOrbit(mem: Memory, head: Addr, i: nat)
    requires Closed(mem) && Readable(mem, head)
    ensures Readable(mem, At(mem, head, i))
  {
    if i > 0 {
      ClosedOrbit(mem, head, i - 1);
    }
  }

  /** Without NULL links the orbit runs into a cycle, or comes back to the head
      after its simple stretch. */
  lemma CycleOrRing(mem: Memory, head: Addr)
    requires Closed(mem) && Readable(mem, head)
    ensures RunsIntoCycle(mem, head) <==> forall i :: 1 <= i ==> At(mem, head, i) != head
    ensures RunsIntoCycle(mem, head) || ReturnsToHead(mem, head)
  {
    TrailSpec(mem, head);
    Shapes(mem, head);
    ClosedOrbit(mem, head, TrailLength(mem, head) + 1);
    if RunsIntoCycle(mem, head) {
      forall i | 1 <= i ensures At(mem, head, i) != head {
        CycleStays(mem, head, i);
      }
    }
  }

  /** How walks end in the two shapes. */
  lemma ShapeReports(mem: Memory, head: Addr)
    requires Readable(mem, head) && (RunsIntoCycle(mem, head) || ReturnsToHead(mem, head))
    ensures Verdict(mem, head) == Cycle <==> RunsIntoCycle(mem, head)
    ensures Verdict(mem, head) in {Cycle, BrokenLink, Done}
    ensures FalseAlarm(mem, head) <==> ReturnsToHead(mem, head) && mem[head].next != head && BrokenAt(mem, head, 1)
  {
    TrailSpec(mem, head);
    Shapes(mem, head);
    assert At(mem, head, 1) == mem[head].next;
    if RunsIntoCycle(mem, head) {
      CycleStays(mem, head, TrailLength(mem, head) + 1);
    }
  }

  /** On readable memory without NULL links visited-set mode reports a cycle
      exactly for the lists that never come back to their head; tortoise-and-hare
      mode does so exactly for those and for the rings whose first node has a
      wrong back link. */
  lemma CycleReports(mem: Memory, head: Addr)
    requires Closed(mem) && Readable(mem, head)
    ensures ListOutcome(mem, head, false, true) == Cycle <==> forall i :: 1 <= i ==> At(mem, head, i) != head
    ensures ListOutcome(mem, head, false, false) == Cycle <==>
              || (forall i :: 1 <= i ==> At(mem, head, i) != head)
              || (mem[head].next != head && mem[mem[head].next].prev != head)
    ensures ListOutcome(mem, head, false, true) in {Cycle, BrokenLink, Done}
  {
    CycleOrRing(mem, head);
    ShapeReports(mem, head);
    ClosedOrbit(mem, head, 1);
    assert At(mem, head, 1) == mem[head].next && At(mem, head, 0) == head;
  }

  /** The shape of a ring is settled by any n that closes it. */
  lemma RingShape(mem: Memory, head: Addr, n: nat)
    requires Readable(mem, head) && Simple(mem, head, n) && At(mem, head, n + 1) == head
    ensures TrailLength(mem, head) == n && ReturnsToHead(mem, head)
    ensures Verdict(mem, head) == if BrokenBefore(mem, head, n + 1) then BrokenLink else Done
  {
    assert StopsAfter(mem, head, n);
    TrailSpec(mem, head);
    Shapes(mem, head);
  }

  const LOOSE_RING: Memory := map[1 := ListHead(2, 2), 2 := ListHead(1, 7)]

  lemma LooseRing()
    ensures At(LOOSE_RING, 1, 1) == 2 && At(LOOSE_RING, 1, 2) == 1
    ensures Simple(LOOSE_RING, 1, 1) && BrokenAt(LOOSE_RING, 1, 1)
  {
    assert At(LOOSE_RING, 1, 0) == 1;
    assert At(LOOSE_RING, 1, 1) == LOOSE_RING[1].next;
    assert At(LOOSE_RING, 1, 2) == LOOSE_RING[2].next;
  }

  /** A ring of one node whose back link is wrong is reported as a cycle by the
      tortoise-and-hare mode, and as a broken link by the other. */
  lemma FirstBackLinkAlarm()
    ensures ListOutcome(LOOSE_RING, 1, false, false) == Cycle
    ensures ListOutcome(LOOSE_RING, 1, false, true) == BrokenLink
  {
    LooseRing();
    RingShape(LOOSE_RING, 1, 1);
  }

  ghost function Reversed(s: seq<Addr>): (r: seq<Addr>)
    ensures |r| == |s| && forall i :: 0 <= i < |s| ==> r[i] == s[|s| - 1 - i]
  {
    seq(|s|, i requires 0 <= i < |s| => s[|s| - 1 - i])
  }

  /** In a ring with intact back links, walking backwards retraces the orbit. */
  lemma {:induction false} Retraces(mem: Memory, head: Addr, n: nat, i: nat)
    requires Readable(mem, head) && Simple(mem, head, n) && At(mem, head, n + 1) == head
    requires !BrokenBefore(mem, head, n + 1)
    requires mem[head].prev == At(mem, head, n)
    requires i <= n + 1
    ensures At(Oriented(mem, true), head, i) == At(mem, head, n + 1 - i)
    decreases i
  {
    if i > 0 {
      Retraces(mem, head, n, i - 1);
      if i > 1 {
        assert !BrokenAt(mem, head, n + 2 - i);
      }
    }
  }

  lemma RetracedRing(mem: Memory, head: Addr, n: nat)
    requires Readable(mem, head) && Simple(mem, head, n) && At(mem, head, n + 1) == head
    requires !BrokenBefore(mem, head, n + 1)
    requires mem[head].prev == At(mem, head, n)
    ensures var back := Oriented(mem, true);
            && Simple(back, head, n) && At(back, head, n + 1) == head
            && !BrokenBefore(back, head, n + 1)
            && Positions(back, head, n) == Reversed(Positions(mem, head, n))
  {
    var back := Oriented(mem, true);
    forall i | 0 <= i <= n + 1
      ensures At(back, head, i) == At(mem, head, n + 1 - i)
    {
      Retraces(mem, head, n, i);
    }
    forall i | 1 <= i < n + 1 ensures !BrokenAt(back, head, i) {
      assert At(mem, head, (n + 1 - i) + 1) == At(back, head, i - 1);
    }
  }

  /** A list that walks forward without error walks backward without error, and
      yields the reverse, exactly when the head's own `prev` is the last node. */
  lemma ReverseWalk(mem: Memory, head: Addr)
    requires ListOutcome(mem, head, false, false) == Done
    ensures var n := TrailLength(mem, head);
            var back := Oriented(mem, true);
            mem[head].prev == At(mem, head, n) <==>
              && ListOutcome(mem, head, true, false) == Done
              && TrailLength(back, head) == n
              && Positions(back, head, n) == Reversed(Positions(mem, head, n))
  {
    var n := TrailLength(mem, head);
    var back := Oriented(mem, true);
    TrailSpec(mem, head);
    assert At(back, head, 1) == mem[head].prev;
    if mem[head].prev == At(mem, head, n) {
      RetracedRing(mem, head, n);
      RingShape(back, head, n);
    } else {
      assert n >= 1 ==> Positions(back, head, n)[0] == mem[head].prev;
      assert n == 0 ==> Positions(back, head, n) == [];
      TrailSpec(back, head);
    }
  }
}
