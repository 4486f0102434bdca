/** The reader of the lockless printk ring (crash/subsystem/printk/lockless_ringbuffer.py).
    The ring's contents are arbitrary: descriptors and records may be torn or stale. */
module Printk {

  const STATE_BITS: nat := 64
  const STATE_RANGE: int := 0x1_0000_0000_0000_0000
  const STATE_UNIT: int := 0x4000_0000_0000_0000

  function Pow2(n: nat): (r: nat)
    ensures r >= 1
  {
    if n == 0 then 1 else 2 * Pow2(n - 1)
  }

  /** One state word per descriptor, read as a signed long, and one sequence number
      per record; both arrays have 2^countBits slots. */
  datatype Ring = Ring(countBits: nat, states: seq<int>, seqs: seq<nat>, tailId: int)

  ghost predicate WellFormed(ring: Ring) {
    && |ring.states| == Pow2(ring.countBits) == |ring.seqs|
    && forall i :: 0 <= i < |ring.states| ==> SignedWord(ring.states[i])
  }

  predicate SignedWord(w: int) {
    -2 * STATE_UNIT <= w < 2 * STATE_UNIT
  }

  /** `desc_state`: the two top bits of the state word. */
  function DescState(state: int): (s: nat)
    ensures s < 4
  {
    (state % STATE_RANGE) / STATE_UNIT
  }

  /** As signed words, finalized states are the lower half of the negative numbers and
      reusable ones the upper half. */
  lemma StateOfWord(w: int)
    requires SignedWord(w)
    ensures DescState(w) == 2 <==> -0x8000_0000_0000_0000 <= w < -0x4000_0000_0000_0000
    ensures DescState(w) == 3 <==> -0x4000_0000_0000_0000 <= w < 0
  {
  }

  /** `get_idx`: the low countBits bits of an id, which may be negative. */
  function Slot(ring: Ring, id: int): (i: nat)
    ensures i < Pow2(ring.countBits)
  {
    id % Pow2(ring.countBits)
  }

  predicate Finalized(ring: Ring, id: int)
    requires WellFormed(ring)
  {
    DescState(ring.states[Slot(ring, id)]) == 2
  }

  predicate Reusable(ring: Ring, id: int)
    requires WellFormed(ring)
  {
    DescState(ring.states[Slot(ring, id)]) == 3
  }

  /** One of the two states in which a slot can be read. */
  predicate Settled(ring: Ring, id: int)
    requires WellFormed(ring)
  {
    Finalized(ring, id) || Reusable(ring, id)
  }

  /** `is_valid_desc` for the slot of sequence number n. */
  predicate Valid(ring: Ring, n: nat)
    requires WellFormed(ring)
  {
    Settled(ring, n) && ring.seqs[Slot(ring, n)] == n
  }

  // ----- Runs of valid records -----

  ghost predicate AllValid(ring: Ring, first: nat, count: nat)
    requires WellFormed(ring)
  {
    forall i :: first <= i < first + count ==> Valid(ring, i)
  }

  /** The records from `first` on are valid for exactly `count` sequence numbers. */
  ghost predicate IsRun(ring: Ring, first: nat, count: nat)
    requires WellFormed(ring)
  {
    AllValid(ring, first, count) && !Valid(ring, first + count)
  }

  /** A finalized record before which, from `first` on, all are valid. */
  ghost predicate Showable(ring: Ring, first: nat, n: nat)
    requires WellFormed(ring)
  {
    first <= n && AllValid(ring, first, n + 1 - first) && Finalized(ring, n)
  }

  ghost predicate HasShowable(ring: Ring, first: nat)
    requires WellFormed(ring)
  {
    exists n: nat :: Showable(ring, first, n)
  }

  lemma SlotPeriod(ring: Ring, n: int)
    ensures Slot(ring, n + Pow2(ring.countBits)) == Slot(ring, n)
  {
    var size := Pow2(ring.countBits);
    var q := n / size;
    assert n == q * size + n % size;
    assert n + size == (q + 1) * size + n % size;
    ModUnique(n + size, size, q + 1, n % size);
  }

  lemma ModUnique(x: int, d: nat, q: int, r: int)
    requires d >= 1 && x == q * d + r && 0 <= r < d
    ensures x % d == r
  {
    var q', r' := x / d, x % d;
    assert x == q' * d + r';
    assert (q - q') * d == r' - r;
    Multiples(q - q', d);
  }

  lemma Multiples(k: int, d: nat)
    ensures k >= 1 ==> k * d >= d
    ensures k <= -1 ==> k * d <= -(d as int)
  {
  }

  /** One slot holds one sequence number, so no run goes round the ring. */
  lemma RunFits(ring: Ring, first: nat, count: nat)
    requires WellFormed(ring) && AllValid(ring, first, count)
    ensures count <= Pow2(ring.countBits)
  {
    var size := Pow2(ring.countBits);
    if count > size {
      assert Valid(ring, first) && Valid(ring, first + size);
      SlotPeriod(ring, first);
    }
  }

  /** A run visits no slot twice. */
  lemma SlotsDistinct(ring: Ring, first: nat, count: nat, i: nat, j: nat)
    requires WellFormed(ring) && AllValid(ring, first, count)
    requires i < j < count
    ensures Slot(ring, first + i) != Slot(ring, first + j)
  {
    assert Valid(ring, first + i) && Valid(ring, first + j);
  }

  lemma RunUnique(ring: Ring, first: nat, m: nat, n: nat)
    requires WellFormed(ring) && IsRun(ring, first, m) && IsRun(ring, first, n)
    ensures m == n
  {
  }

  /** How many sequence numbers from `first` on are valid, the first n being so. */
  ghost function RunFrom(ring: Ring, first: nat, n: nat): (count: nat)
    requires WellFormed(ring) && AllValid(ring, first, n)
    ensures IsRun(ring, first, count)
    decreases Pow2(ring.countBits) + 1 - n
  {
    RunFits(ring, first, n);
    if Valid(ring, first + n) then
      OneMoreValid(ring, first, n);
      RunFrom(ring, first, n + 1)
    else n
  }

  lemma OneMoreValid(ring: Ring, first: nat, n: nat)
    requires WellFormed(ring) && AllValid(ring, first, n) && Valid(ring, first + n)
    ensures AllValid(ring, first, n + 1)
  {
  }

  /** The finalized ones among the sequence numbers first .. first+count-1. */
  ghost function FinalizedIn(ring: Ring, first: nat, count: nat): seq<nat>
    requires WellFormed(ring)
  {
    if count == 0 then []
    else
      var n := first + count - 1;
      FinalizedIn(ring, first, count - 1) + if Finalized(ring, n) then [n] else []
  }

  lemma {:induction false} FinalizedInMembers(ring: Ring, first: nat, count: nat, n: nat)
    requires WellFormed(ring)
    ensures n in FinalizedIn(ring, first, count) <==> first <= n < first + count && Finalized(ring, n)
  {
    if count > 0 {
      FinalizedInMembers(ring, first, count - 1, n);
    }
  }

  ghost predicate Ascending(s: seq<nat>) {
    forall i, j :: 0 <= i < j < |s| ==> s[i] < s[j]
  }

  lemma AscendingLonger(s: seq<nat>, n: nat)
    requires Ascending(s) && forall i :: 0 <= i < |s| ==> s[i] < n
    ensures Ascending(s + [n])
  {
  }

  lemma {:induction false} FinalizedInAscends(ring: Ring, first: nat, count: nat)
    requires WellFormed(ring)
    ensures Ascending(FinalizedIn(ring, first, count))
  {
    if count > 0 {
      FinalizedInAscends(ring, first, count - 1);
      var head, n := FinalizedIn(ring, first, count - 1), first + count - 1;
      forall i | 0 <= i < |head| ensures head[i] < n {
        FinalizedInMembers(ring, first, count - 1, head[i]);
      }
      AscendingLonger(head, n);
      assert FinalizedIn(ring, first, count) == if Finalized(ring, n) then head + [n] else head;
    }
  }

  lemma FinalizedInMeaning(ring: Ring, first: nat, count: nat)
    requires WellFormed(ring)
    ensures var s := FinalizedIn(ring, first, count);
            && (forall n: nat :: n in s <==> first <= n < first + count && Finalized(ring, n))
            && Ascending(s)
  {
    forall n: nat
      ensures n in FinalizedIn(ring, first, count) <==> first <= n < first + count && Finalized(ring, n)
    {
      FinalizedInMembers(ring, first, count, n);
    }
    FinalizedInAscends(ring, first, count);
  }

  datatype Start = At(first: nat) | Inconsistent

  /** `first_seq`: only the tail slot is tried (the loop runs once). */
  function FirstSeq(ring: Ring): Start
    requires WellFormed(ring)
  {
    if Settled(ring, ring.tailId) then At(ring.seqs[Slot(ring, ring.tailId)]) else Inconsistent
  }

  /** What its comment promises: the tail slot, or else the one after it, since the
      tail may be on its way to the next one. */
  function DocumentedFirstSeq(ring: Ring): Start
    requires WellFormed(ring)
  {
    if Settled(ring, ring.tailId) then At(ring.seqs[Slot(ring, ring.tailId)])
    else if Settled(ring, ring.tailId + 1) then At(ring.seqs[Slot(ring, ring.tailId + 1)])
    else Inconsistent
  }

  /** The log a reader shows that begins there. */
  ghost function LogFrom(ring: Ring, start: Start): seq<nat>
    requires WellFormed(ring)
  {
    match start
    case Inconsistent => []
    case At(first) => FinalizedIn(ring, first, RunFrom(ring, first, 0))
  }

  /** The record for sequence number n is there, in terms of its slot's words. */
  ghost predicate Stored(ring: Ring, n: nat)
    requires WellFormed(ring)
  {
    ring.states[n % |ring.states|] < 0 && ring.seqs[n % |ring.states|] == n
  }

  lemma StoredIsValid(ring: Ring, id: int)
    requires WellFormed(ring)
    ensures Settled(ring, id) <==> ring.states[id % |ring.states|] < 0
    ensures Finalized(ring, id) <==> ring.states[id % |ring.states|] < -0x4000_0000_0000_0000
    ensures id >= 0 ==> (Valid(ring, id) <==> Stored(ring, id))
  {
    StateOfWord(ring.states[id % |ring.states|]);
  }

  /** What `show_log` shows, said of the ring's words alone: a start exists iff the
      word in the tail's slot is negative; shown are, in ascending order, the numbers
      up to which every record from the start's is stored and whose own word is a
      finalized one. */
  ghost predicate ShownOf(ring: Ring, ok: bool, shown: seq<nat>)
    requires WellFormed(ring)
  {
    var tail := ring.tailId % |ring.states|;
    && (ok <==> ring.states[tail] < 0)
    && (!ok ==> shown == [])
    && Ascending(shown)
    && (ok ==> forall n: nat :: n in shown <==> ShownFrom(ring, ring.seqs[tail], n))
  }

  ghost predicate ShownFrom(ring: Ring, first: nat, n: nat)
    requires WellFormed(ring)
  {
    && first <= n && (forall m :: first <= m <= n ==> Stored(ring, m))
    && ring.states[n % |ring.states|] < -0x4000_0000_0000_0000
  }

  lemma LogInWords(ring: Ring)
    requires WellFormed(ring)
    ensures ShownOf(ring, FirstSeq(ring).At?, LogFrom(ring, FirstSeq(ring)))
  {
    StoredIsValid(ring, ring.tailId);
    var first := ring.seqs[ring.tailId % |ring.states|];
    if FirstSeq(ring).At? {
      LogMembers(ring, first);
      FinalizedInAscends(ring, first, RunFrom(ring, first, 0));
      forall n: nat ensures Showable(ring, first, n) <==> ShownFrom(ring, first, n) {
        StoredIsValid(ring, n);
        forall m: nat ensures Valid(ring, m) <==> Stored(ring, m) {
          StoredIsValid(ring, m);
        }
      }
    }
  }

  /** `show_log`: the sequence numbers shown, and how many records were visited.
      `ok` is false when no sequence number can be had from the tail. */
  method ShowLog(ring: Ring) returns (ok: bool, shown: seq<nat>, visited: nat)
    requires WellFormed(ring)
    ensures ok <==> FirstSeq(ring).At?
    ensures shown == LogFrom(ring, FirstSeq(ring))
    ensures ok ==>
              && IsRun(ring, FirstSeq(ring).first, visited)
              && visited <= Pow2(ring.countBits)
              && shown == FinalizedIn(ring, FirstSeq(ring).first, visited)
    ensures !ok ==> visited == 0
    ensures ShownOf(ring, ok, shown)
  {
    shown, visited := [], 0;
    LogInWords(ring);
    var start := FirstSeq(ring);
    if start.Inconsistent? {
      return false, [], 0;
    }
    ok := true;
    var n := start.first;
    while true
      invariant n == start.first + visited
      invariant AllValid(ring, start.first, visited)
      invariant shown == FinalizedIn(ring, start.first, visited)
      decreases Pow2(ring.countBits) - visited
    {
      RunFits(ring, start.first, visited);
      if !Valid(ring, n) {
        RunUnique(ring, start.first, visited, RunFrom(ring, start.first, 0));
        return;
      }
      var current := n;
      n := n + 1;
      visited := visited + 1;
      RunFits(ring, start.first, visited);
      if Reusable(ring, current) {
        continue;
      }
      shown := shown + [current];
    }
  }

  /** On a ring filled with consecutive valid records from the tail's on, the whole
      ring is visited. */
  lemma FullRing(ring: Ring, first: nat, visited: nat)
    requires WellFormed(ring) && AllValid(ring, first, Pow2(ring.countBits)) && IsRun(ring, first, visited)
    ensures visited == Pow2(ring.countBits)
  {
    RunFits(ring, first, visited);
  }

  // ----- The slot that is not tried -----

  /** `first_seq` finds what it documents unless the tail slot is in neither state
      and the next one is. */
  lemma FirstSeqAsDocumented(ring: Ring)
    requires WellFormed(ring)
    ensures FirstSeq(ring) == DocumentedFirstSeq(ring) <==>
              Settled(ring, ring.tailId) || !Settled(ring, ring.tailId + 1)
  {
  }

  /** The log shown is the one documented unless the tail slot is in neither state,
      the next one is, and a finalized record is in the valid run from there; then
      nothing is shown, and what is lost is every finalized record of that run. */
  lemma ShownAsDocumented(ring: Ring)
    requires WellFormed(ring)
    ensures var first := ring.seqs[Slot(ring, ring.tailId + 1)];
            var shown, documented := LogFrom(ring, FirstSeq(ring)), LogFrom(ring, DocumentedFirstSeq(ring));
            && (shown != documented <==>
                  !Settled(ring, ring.tailId) && Settled(ring, ring.tailId + 1) && HasShowable(ring, first))
            && (shown != documented ==>
                  shown == [] && forall n: nat :: n in documented <==> Showable(ring, first, n))
  {
    if !Settled(ring, ring.tailId) && Settled(ring, ring.tailId + 1) {
      LogMembers(ring, ring.seqs[Slot(ring, ring.tailId + 1)]);
    }
  }

  lemma LogMembers(ring: Ring, first: nat)
    requires WellFormed(ring)
    ensures var log := LogFrom(ring, At(first));
            && (forall n: nat :: n in log <==> Showable(ring, first, n))
            && (log != [] <==> HasShowable(ring, first))
  {
    var count := RunFrom(ring, first, 0);
    FinalizedInMeaning(ring, first, count);
    forall n: nat ensures Showable(ring, first, n) <==> first <= n < first + count && Finalized(ring, n) {
      assert !Valid(ring, first + count);
    }
    var log := LogFrom(ring, At(first));
    assert log != [] ==> log[0] in log;
  }

  // Two slots: the tail's is reserved by a writer, the next one is finalized.
  const MOVING := Ring(1, [0, -0x8000_0000_0000_0000], [0, 1], 0)

  /** A ring on which the reader gives up and the documented one shows a record. */
  lemma TailMoving()
    ensures WellFormed(MOVING)
    ensures FirstSeq(MOVING) == Inconsistent && DocumentedFirstSeq(MOVING) == At(1)
    ensures LogFrom(MOVING, FirstSeq(MOVING)) == [] && LogFrom(MOVING, DocumentedFirstSeq(MOVING)) == [1]
  {
    assert Pow2(1) == 2 * Pow2(0) && Slot(MOVING, 2) == 0;
    assert Valid(MOVING, 1) && !Valid(MOVING, 2);
    RunUnique(MOVING, 1, 1, RunFrom(MOVING, 1, 0));
    assert FinalizedIn(MOVING, 1, 1) == FinalizedIn(MOVING, 1, 0) + [1];
  }
}
