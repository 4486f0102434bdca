/** Checking the slabs of one list (crash/types/slab.py, `__check_slab` and
    `___check_slabs`): the report groups good slabs into ranges and misplaced ones
    into runs as it goes. */
module SlabReport {
  import opened Collections

  type Addr = nat

  /** What became of one slab. */
  datatype Finding =
    | Good
    | Faulty                    // some error, but on the right list
    | Misplaced(note: string)   // on the wrong list; misplaced_error is set
    | Unchecked                 // the check itself raised NotAvailableError

  datatype Slab = Slab(addr: Addr, finding: Finding, free: nat)

  datatype Report =
    | GoodRange(count: nat, first: Addr, last: Addr)
    | MisplacedFirst(note: string)
    | MisplacedRun(count: nat, note: string)

  // ----- The report as it should be -----

  /** An unchecked slab leaves no trace in the report. */
  function Checked(slabs: seq<Slab>): seq<Slab> {
    if slabs == [] then []
    else (if slabs[0].finding.Unchecked? then [] else [slabs[0]]) + Checked(slabs[1..])
  }

  predicate SameKind(a: Finding, b: Finding) {
    a.Good? == b.Good? && a.Faulty? == b.Faulty? && a.Misplaced? == b.Misplaced?
  }

  /** How many slabs at the front are of the same kind. */
  function RunLength(slabs: seq<Slab>): (n: nat)
    requires slabs != []
    ensures 1 <= n <= |slabs|
  {
    if |slabs| > 1 && SameKind(slabs[0].finding, slabs[1].finding) then 1 + RunLength(slabs[1..]) else 1
  }

  /** The address a range starts with: Python takes an address of 0 for none. */
  function FirstAddr(run: seq<Slab>): Addr
    requires run != []
  {
    if run[0].addr != 0 || |run| == 1 then run[0].addr else FirstAddr(run[1..])
  }

  function RunReport(run: seq<Slab>): seq<Report>
    requires run != []
  {
    var last := run[|run| - 1];
    if run[0].finding.Good? then [GoodRange(|run|, FirstAddr(run), last.addr)]
    else if run[0].finding.Misplaced? && last.finding.Misplaced? then
      [MisplacedFirst(run[0].finding.note), MisplacedRun(|run|, last.finding.note)]
    else []
  }

  /** One entry per maximal run. */
  function Reports(slabs: seq<Slab>): seq<Report>
    decreases |slabs|
  {
    if slabs == [] then []
    else
      var n := RunLength(slabs);
      RunReport(slabs[..n]) + Reports(slabs[n..])
  }

  function TotalFree(slabs: seq<Slab>): nat {
    if slabs == [] then 0 else slabs[0].free + TotalFree(slabs[1..])
  }

  ghost predicate Uniform(run: seq<Slab>) {
    forall i :: 0 <= i < |run| ==> SameKind(run[0].finding, run[i].finding)
  }

  lemma {:induction false} RunAtFront(run: seq<Slab>, rest: seq<Slab>)
    requires run != [] && Uniform(run)
    requires rest != [] ==> !SameKind(run[0].finding, rest[0].finding)
    ensures RunLength(run + rest) == |run|
    decreases |run|
  {
    var all := run + rest;
    if |run| > 1 {
      assert all[1] == run[1] && SameKind(run[0].finding, run[1].finding);
      assert all[1..] == run[1..] + rest;
      assert Uniform(run[1..]) by {
        forall i | 0 <= i < |run| - 1 ensures SameKind(run[1..][0].finding, run[1..][i].finding) {
          assert SameKind(run[0].finding, run[i + 1].finding);
        }
      }
      RunAtFront(run[1..], rest);
    }
  }

  /** A run that cannot be extended is reported by itself. */
  lemma RunCloses(run: seq<Slab>, rest: seq<Slab>)
    requires run != [] && Uniform(run)
    requires rest != [] ==> !SameKind(run[0].finding, rest[0].finding)
    ensures Reports(run + rest) == RunReport(run) + Reports(rest)
  {
    RunAtFront(run, rest);
    assert (run + rest)[..|run|] == run && (run + rest)[|run|..] == rest;
  }

  /** A slab that is merely faulty is reported by nobody. */
  lemma {:induction false} FaultySkipped(slabs: seq<Slab>)
    requires slabs != [] && slabs[0].finding.Faulty?
    ensures Reports(slabs) == Reports(slabs[1..])
    decreases |slabs|
  {
    var n := RunLength(slabs);
    if n > 1 {
      assert RunReport(slabs[..n]) == [];
      assert RunLength(slabs[1..]) == n - 1;
      assert RunReport(slabs[1..][..n - 1]) == [];
      assert slabs[1..][n - 1..] == slabs[n..];
    } else {
      assert RunReport(slabs[..1]) == [];
    }
  }

  // ----- Counting -----

  function CountGood(slabs: seq<Slab>): nat {
    if slabs == [] then 0 else (if slabs[0].finding.Good? then 1 else 0) + CountGood(slabs[1..])
  }

  function CountMisplaced(slabs: seq<Slab>): nat {
    if slabs == [] then 0 else (if slabs[0].finding.Misplaced? then 1 else 0) + CountMisplaced(slabs[1..])
  }

  function ReportedGood(rs: seq<Report>): nat {
    if rs == [] then 0 else (if rs[0].GoodRange? then rs[0].count else 0) + ReportedGood(rs[1..])
  }

  function ReportedMisplaced(rs: seq<Report>): nat {
    if rs == [] then 0 else (if rs[0].MisplacedRun? then rs[0].count else 0) + ReportedMisplaced(rs[1..])
  }

  lemma {:induction false} RunCounts(slabs: seq<Slab>)
    requires slabs != []
    ensures var n := RunLength(slabs);
            && Uniform(slabs[..n])
            && CountGood(slabs) == (if slabs[0].finding.Good? then n else 0) + CountGood(slabs[n..])
            && CountMisplaced(slabs) == (if slabs[0].finding.Misplaced? then n else 0) + CountMisplaced(slabs[n..])
    decreases |slabs|
  {
    var n := RunLength(slabs);
    if n > 1 {
      RunCounts(slabs[1..]);
      assert slabs[1..][n - 1..] == slabs[n..];
      forall i | 0 <= i < n ensures SameKind(slabs[..n][0].finding, slabs[..n][i].finding) {
        assert i > 0 ==> slabs[..n][i] == slabs[1..][..n - 1][i - 1];
      }
    }
  }

  /** Nothing is lost: the counts reported add up to the slabs found. */
  lemma {:induction false} ReportsAddUp(slabs: seq<Slab>)
    ensures ReportedGood(Reports(slabs)) == CountGood(slabs)
    ensures ReportedMisplaced(Reports(slabs)) == CountMisplaced(slabs)
    decreases |slabs|
  {
    if slabs != [] {
      var n := RunLength(slabs);
      var run := slabs[..n];
      RunCounts(slabs);
      ReportsAddUp(slabs[n..]);
      assert SameKind(run[0].finding, run[n - 1].finding);
      var rs := RunReport(run);
      ReportedConcat(rs, Reports(slabs[n..]));
      assert rs[..] == rs;
      if slabs[0].finding.Misplaced? {
        assert rs[1..] == [rs[1]];
        assert rs[1..][1..] == [];
      } else if slabs[0].finding.Good? {
        assert rs[1..] == [];
      }
    }
  }

  lemma {:induction false} ReportedConcat(rs: seq<Report>, qs: seq<Report>)
    ensures ReportedGood(rs + qs) == ReportedGood(rs) + ReportedGood(qs)
    ensures ReportedMisplaced(rs + qs) == ReportedMisplaced(rs) + ReportedMisplaced(qs)
    decreases |rs|
  {
    if rs == [] {
      assert rs + qs == qs;
    } else {
      ReportedConcat(rs[1..], qs);
      assert (rs + qs)[1..] == rs[1..] + qs;
    }
  }

  lemma {:induction false} CheckedCounts(slabs: seq<Slab>)
    ensures CountGood(Checked(slabs)) == CountGood(slabs)
    ensures CountMisplaced(Checked(slabs)) == CountMisplaced(slabs)
  {
    if slabs != [] {
      CheckedCounts(slabs[1..]);
      if slabs[0].finding.Unchecked? {
        assert Checked(slabs) == Checked(slabs[1..]);
      } else {
        assert Checked(slabs)[1..] == Checked(slabs[1..]);
      }
    }
  }

  // ----- What the lines of the report say -----

  /** A stretch of neighbours in the list, up to but not including `to`. */
  datatype Stretch = Stretch(from: nat, to: nat)

  /** All of one kind, and no longer one is. */
  ghost predicate Maximal(slabs: seq<Slab>, x: Stretch) {
    && x.from < x.to <= |slabs|
    && (forall k :: x.from <= k < x.to ==> SameKind(slabs[x.from].finding, slabs[k].finding))
    && (x.from > 0 ==> !SameKind(slabs[x.from - 1].finding, slabs[x.from].finding))
    && (x.to < |slabs| ==> !SameKind(slabs[x.to - 1].finding, slabs[x.to].finding))
  }

  /** The first slab of the stretch, passing over those at address 0. */
  ghost predicate StartsAt(slabs: seq<Slab>, x: Stretch, f: nat)
    requires x.to <= |slabs|
  {
    && x.from <= f < x.to
    && (forall k :: x.from <= k < f ==> slabs[k].addr == 0)
    && (slabs[f].addr != 0 || f == x.to - 1)
  }

  ghost predicate RangeLine(slabs: seq<Slab>, x: Stretch, line: Report)
    requires x.from < x.to <= |slabs|
  {
    && line.GoodRange? && line.count == x.to - x.from && line.last == slabs[x.to - 1].addr
    && exists f: nat :: StartsAt(slabs, x, f) && line.first == slabs[f].addr
  }

  /** On the lines from p on stands what there is to say about the stretch. */
  ghost predicate LinesAt(slabs: seq<Slab>, x: Stretch, lines: seq<Report>, p: nat)
    requires x.from < x.to <= |slabs|
  {
    match slabs[x.from].finding
    case Good => p < |lines| && RangeLine(slabs, x, lines[p])
    case Misplaced(note) =>
      && p + 1 < |lines| && slabs[x.to - 1].finding.Misplaced?
      && lines[p] == MisplacedFirst(note)
      && lines[p + 1] == MisplacedRun(x.to - x.from, slabs[x.to - 1].finding.note)
    case _ => false
  }

  ghost function Width(f: Finding): nat {
    match f
    case Good => 1
    case Misplaced(_) => 2
    case _ => 0
  }

  /** The lines are those of the stretches xs, one after the other, from line at[k]
      on for the k-th; the stretches are the maximal ones of good and of misplaced
      slabs from index i on, in order. */
  ghost predicate ReadsOff(slabs: seq<Slab>, i: nat, xs: seq<Stretch>, at: seq<nat>, lines: seq<Report>) {
    AllSaid(slabs, i, xs, at, lines) && Ordered(xs) && AllCovered(slabs, i, xs)
  }

  ghost predicate AllSaid(slabs: seq<Slab>, i: nat, xs: seq<Stretch>, at: seq<nat>, lines: seq<Report>) {
    && |at| == |xs| + 1 && at[0] == 0 && at[|xs|] == |lines|
    && forall k :: 0 <= k < |xs| ==> Said(slabs, i, xs[k], lines, at[k], at[k + 1])
  }

  ghost predicate Said(slabs: seq<Slab>, i: nat, x: Stretch, lines: seq<Report>, p: nat, next: nat) {
    && Maximal(slabs, x) && i <= x.from
    && LinesAt(slabs, x, lines, p) && next == p + Width(slabs[x.from].finding)
  }

  ghost predicate Ordered(xs: seq<Stretch>) {
    forall j, k :: 0 <= j < k < |xs| ==> xs[j].to <= xs[k].from
  }

  ghost predicate AllCovered(slabs: seq<Slab>, i: nat, xs: seq<Stretch>) {
    forall m: nat :: i <= m < |slabs| && !slabs[m].finding.Faulty? && !slabs[m].finding.Unchecked? ==> Covers(xs, m)
  }

  ghost predicate Covers(xs: seq<Stretch>, m: nat) {
    exists k :: 0 <= k < |xs| && xs[k].from <= m < xs[k].to
  }

  lemma {:induction false} RunIsMaximal(slabs: seq<Slab>)
    requires slabs != []
    ensures var n := RunLength(slabs);
            && Uniform(slabs[..n]) && (n < |slabs| ==> !SameKind(slabs[n - 1].finding, slabs[n].finding))
    decreases |slabs|
  {
    RunCounts(slabs);
    if RunLength(slabs) > 1 {
      RunIsMaximal(slabs[1..]);
    }
  }

  lemma {:induction false} FirstAddrIs(slabs: seq<Slab>, x: Stretch) returns (f: nat)
    requires x.from < x.to <= |slabs|
    ensures StartsAt(slabs, x, f) && FirstAddr(slabs[x.from..x.to]) == slabs[f].addr
    decreases x.to - x.from
  {
    var run := slabs[x.from..x.to];
    if run[0].addr != 0 || |run| == 1 {
      f := x.from;
    } else {
      f := FirstAddrIs(slabs, Stretch(x.from + 1, x.to));
      assert run[1..] == slabs[x.from + 1..x.to];
    }
  }

  /** The run at the front of what is left is a maximal stretch. */
  lemma RunStretch(slabs: seq<Slab>, i: nat)
    requires i < |slabs| && (i > 0 ==> !SameKind(slabs[i - 1].finding, slabs[i].finding))
    ensures Maximal(slabs, Stretch(i, i + RunLength(slabs[i..])))
  {
    var n := RunLength(slabs[i..]);
    RunIsMaximal(slabs[i..]);
    assert slabs[i..][n - 1] == slabs[i + n - 1];
    assert i + n < |slabs| ==> slabs[i..][n] == slabs[i + n];
    forall k | i <= k < i + n ensures SameKind(slabs[i].finding, slabs[k].finding) {
      assert slabs[i..][..n][k - i] == slabs[k];
    }
  }

  lemma RunSays(slabs: seq<Slab>, x: Stretch)
    requires Maximal(slabs, x) && !slabs[x.from].finding.Unchecked?
    ensures var lines := RunReport(slabs[x.from..x.to]);
            && |lines| == Width(slabs[x.from].finding)
            && (!slabs[x.from].finding.Faulty? ==> LinesAt(slabs, x, lines, 0))
  {
    var run := slabs[x.from..x.to];
    assert run[0] == slabs[x.from] && run[|run| - 1] == slabs[x.to - 1];
    assert SameKind(slabs[x.from].finding, slabs[x.to - 1].finding);
    var f := FirstAddrIs(slabs, x);
  }

  /** The stretch at index i, its lines, and the rest of the report. */
  lemma FirstStretch(slabs: seq<Slab>, i: nat) returns (x: Stretch, lines: seq<Report>)
    requires i < |slabs| && (i > 0 ==> !SameKind(slabs[i - 1].finding, slabs[i].finding))
    requires !slabs[i].finding.Unchecked?
    ensures x.from == i && Maximal(slabs, x) && |lines| == Width(slabs[i].finding)
    ensures Reports(slabs[i..]) == lines + Reports(slabs[x.to..])
    ensures !slabs[i].finding.Faulty? ==> LinesAt(slabs, x, lines, 0)
  {
    var n := RunLength(slabs[i..]);
    x, lines := Stretch(i, i + n), RunReport(slabs[i..i + n]);
    RunStretch(slabs, i);
    RunSays(slabs, x);
    FrontOfReports(slabs, i, n);
  }

  lemma FrontOfReports(slabs: seq<Slab>, i: nat, n: nat)
    requires i < |slabs| && n == RunLength(slabs[i..])
    ensures Reports(slabs[i..]) == RunReport(slabs[i..i + n]) + Reports(slabs[i + n..])
  {
    assert slabs[i..][..n] == slabs[i..i + n] && slabs[i..][n..] == slabs[i + n..];
  }

  lemma LinesMove(slabs: seq<Slab>, i: nat, x: Stretch, lines: seq<Report>, p: nat, next: nat, before: seq<Report>)
    requires Said(slabs, i, x, lines, p, next)
    ensures Said(slabs, i, x, before + lines, |before| + p, |before| + next)
  {
  }

  lemma LinesKeep(slabs: seq<Slab>, x: Stretch, lines: seq<Report>, p: nat, after: seq<Report>)
    requires x.from < x.to <= |slabs| && LinesAt(slabs, x, lines, p)
    ensures LinesAt(slabs, x, lines + after, p)
  {
  }

  /** The report from a place on where a stretch begins. */
  lemma {:induction false} ReportsReadOffFrom(slabs: seq<Slab>, i: nat) returns (xs: seq<Stretch>, at: seq<nat>)
    requires i <= |slabs| && (0 < i < |slabs| ==> !SameKind(slabs[i - 1].finding, slabs[i].finding))
    requires NoneUnchecked(slabs)
    ensures ReadsOff(slabs, i, xs, at, Reports(slabs[i..]))
    decreases |slabs| - i
  {
    if i == |slabs| {
      xs, at := [], [0];
    } else {
      var x, lines := FirstStretch(slabs, i);
      var xs', at' := ReportsReadOffFrom(slabs, x.to);
      if slabs[i].finding.Faulty? {
        xs, at := xs', at';
        StretchSkipped(slabs, x, lines, xs', at', Reports(slabs[x.to..]));
      } else {
        xs, at := [x] + xs', Moved(at', |lines|);
        StretchAdded(slabs, x, lines, xs', at', Reports(slabs[x.to..]));
      }
    }
  }

  ghost predicate NoneUnchecked(slabs: seq<Slab>) {
    forall k :: 0 <= k < |slabs| ==> !slabs[k].finding.Unchecked?
  }

  ghost function Moved(at: seq<nat>, w: nat): (r: seq<nat>)
    ensures |r| == |at| + 1 && r[0] == 0 && forall k :: 0 <= k < |at| ==> r[k + 1] == w + at[k]
  {
    [0] + seq(|at|, k requires 0 <= k < |at| => w + at[k])
  }

  lemma StretchSkipped(slabs: seq<Slab>, x: Stretch, lines: seq<Report>,
                       xs: seq<Stretch>, at: seq<nat>, rest: seq<Report>)
    requires Maximal(slabs, x) && slabs[x.from].finding.Faulty? && lines == []
    requires ReadsOff(slabs, x.to, xs, at, rest)
    ensures ReadsOff(slabs, x.from, xs, at, lines + rest)
  {
    assert lines + rest == rest;
    forall k | 0 <= k < |xs| ensures Said(slabs, x.from, xs[k], rest, at[k], at[k + 1]) {
      assert Said(slabs, x.to, xs[k], rest, at[k], at[k + 1]);
    }
    forall m: nat | x.from <= m < x.to ensures slabs[m].finding.Faulty? {
      assert SameKind(slabs[x.from].finding, slabs[m].finding);
    }
  }

  lemma StretchAdded(slabs: seq<Slab>, x: Stretch, lines: seq<Report>,
                     xs: seq<Stretch>, at: seq<nat>, rest: seq<Report>)
    requires Maximal(slabs, x) && LinesAt(slabs, x, lines, 0) && |lines| == Width(slabs[x.from].finding)
    requires ReadsOff(slabs, x.to, xs, at, rest)
    ensures ReadsOff(slabs, x.from, [x] + xs, Moved(at, |lines|), lines + rest)
  {
    SaidMore(slabs, x, lines, xs, at, rest);
    OrderedMore(slabs, x, xs, at, rest);
    CoversMore(x, xs);
  }

  lemma SaidMore(slabs: seq<Slab>, x: Stretch, lines: seq<Report>, xs: seq<Stretch>, at: seq<nat>, rest: seq<Report>)
    requires Maximal(slabs, x) && LinesAt(slabs, x, lines, 0) && |lines| == Width(slabs[x.from].finding)
    requires AllSaid(slabs, x.to, xs, at, rest)
    ensures AllSaid(slabs, x.from, [x] + xs, Moved(at, |lines|), lines + rest)
  {
    var ys, bt, all := [x] + xs, Moved(at, |lines|), lines + rest;
    LinesKeep(slabs, x, lines, 0, rest);
    forall k | 0 <= k < |ys| ensures Said(slabs, x.from, ys[k], all, bt[k], bt[k + 1]) {
      if k > 0 {
        assert ys[k] == xs[k - 1] && bt[k] == |lines| + at[k - 1] && bt[k + 1] == |lines| + at[k];
        LinesMove(slabs, x.to, xs[k - 1], rest, at[k - 1], at[k], lines);
      } else {
        assert ys[0] == x && bt[1] == |lines| + at[0];
      }
    }
  }

  lemma OrderedMore(slabs: seq<Slab>, x: Stretch, xs: seq<Stretch>, at: seq<nat>, rest: seq<Report>)
    requires AllSaid(slabs, x.to, xs, at, rest) && Ordered(xs)
    ensures Ordered([x] + xs)
  {
    forall k | 0 <= k < |xs| ensures x.to <= xs[k].from {
      assert Said(slabs, x.to, xs[k], rest, at[k], at[k + 1]);
    }
  }

  lemma CoversMore(x: Stretch, xs: seq<Stretch>)
    ensures forall m: nat :: x.from <= m < x.to ==> Covers([x] + xs, m)
    ensures forall m: nat :: Covers(xs, m) ==> Covers([x] + xs, m)
  {
    var ys := [x] + xs;
    forall m: nat | x.from <= m < x.to ensures Covers(ys, m) {
      assert ys[0] == x;
    }
    forall m: nat | Covers(xs, m) ensures Covers(ys, m) {
      var k :| 0 <= k < |xs| && xs[k].from <= m < xs[k].to;
      assert ys[k + 1] == xs[k];
    }
  }

  /** The report goes through the maximal stretches of good and of misplaced slabs, in
      order, and says of each how long it is and where it starts and ends. */
  lemma ReportsReadOff(slabs: seq<Slab>) returns (xs: seq<Stretch>, at: seq<nat>)
    requires NoneUnchecked(slabs)
    ensures ReadsOff(slabs, 0, xs, at, Reports(slabs))
  {
    xs, at := ReportsReadOffFrom(slabs, 0);
    assert slabs[0..] == slabs;
  }

  /** Where no slab is at address 0, a range starts with the address of its first. */
  lemma RangeStart(slabs: seq<Slab>, x: Stretch, line: Report)
    requires x.from < x.to <= |slabs| && RangeLine(slabs, x, line) && slabs[x.from].addr != 0
    ensures line == GoodRange(x.to - x.from, slabs[x.from].addr, slabs[x.to - 1].addr)
  {
  }

  /** The places of the slabs that were not unchecked. */
  ghost predicate Picks(slabs: seq<Slab>, at: seq<nat>, picked: seq<Slab>) {
    && |at| == |picked|
    && (forall k :: 0 <= k < |at| ==> at[k] < |slabs| && picked[k] == slabs[at[k]])
    && (forall j, k :: 0 <= j < k < |at| ==> at[j] < at[k])
  }

  ghost predicate PicksAll(slabs: seq<Slab>, at: seq<nat>) {
    forall m: nat :: m < |slabs| ==> (m in at <==> !slabs[m].finding.Unchecked?)
  }

  /** The checked slabs are those that were not unchecked, in order. */
  lemma {:induction false} CheckedMeaning(slabs: seq<Slab>) returns (at: seq<nat>)
    ensures Picks(slabs, at, Checked(slabs)) && PicksAll(slabs, at)
  {
    at := [];
    if slabs != [] {
      var rest := CheckedMeaning(slabs[1..]);
      at := PickOne(slabs, rest);
    }
  }

  ghost function Up(at: seq<nat>): (up: seq<nat>)
    ensures |up| == |at| && forall k :: 0 <= k < |at| ==> up[k] == at[k] + 1
  {
    seq(|at|, k requires 0 <= k < |at| => at[k] + 1)
  }

  lemma PickOne(slabs: seq<Slab>, rest: seq<nat>) returns (at: seq<nat>)
    requires slabs != [] && Picks(slabs[1..], rest, Checked(slabs[1..])) && PicksAll(slabs[1..], rest)
    ensures Picks(slabs, at, Checked(slabs)) && PicksAll(slabs, at)
  {
    at := if slabs[0].finding.Unchecked? then Up(rest) else [0] + Up(rest);
    PickUp(slabs, rest, Checked(slabs[1..]));
    PickFirst(slabs, Up(rest), Checked(slabs[1..]));
    PickUpAll(slabs, rest);
    assert [] + Checked(slabs[1..]) == Checked(slabs[1..]);
  }

  lemma PickUp(slabs: seq<Slab>, rest: seq<nat>, picked: seq<Slab>)
    requires slabs != [] && Picks(slabs[1..], rest, picked)
    ensures Picks(slabs, Up(rest), picked)
  {
    forall k | 0 <= k < |rest| ensures Up(rest)[k] < |slabs| && picked[k] == slabs[Up(rest)[k]] {
      assert slabs[rest[k] + 1] == slabs[1..][rest[k]];
    }
  }

  lemma PickFirst(slabs: seq<Slab>, up: seq<nat>, picked: seq<Slab>)
    requires slabs != [] && Picks(slabs, up, picked) && forall k :: 0 <= k < |up| ==> up[k] > 0
    ensures Picks(slabs, [0] + up, [slabs[0]] + picked)
  {
    var at, all := [0] + up, [slabs[0]] + picked;
    forall k | 0 <= k < |at| ensures at[k] < |slabs| && all[k] == slabs[at[k]] {
      assert k > 0 ==> at[k] == up[k - 1] && all[k] == picked[k - 1];
    }
    forall j, k | 0 <= j < k < |at| ensures at[j] < at[k] {
      assert at[k] == up[k - 1] && (j > 0 ==> at[j] == up[j - 1]);
    }
  }

  lemma PickUpAll(slabs: seq<Slab>, rest: seq<nat>)
    requires slabs != [] && PicksAll(slabs[1..], rest)
    ensures PicksAll(slabs, if slabs[0].finding.Unchecked? then Up(rest) else [0] + Up(rest))
  {
    var at := if slabs[0].finding.Unchecked? then Up(rest) else [0] + Up(rest);
    forall m: nat | m < |slabs| ensures m in at <==> !slabs[m].finding.Unchecked? {
      UpMembers(rest, Up(rest), m);
      assert m > 0 ==> slabs[m] == slabs[1..][m - 1];
      assert m in [0] + Up(rest) <==> m == 0 || m in Up(rest);
    }
  }

  lemma UpMembers(xs: seq<nat>, up: seq<nat>, m: nat)
    requires |up| == |xs| && forall k :: 0 <= k < |xs| ==> up[k] == xs[k] + 1
    ensures m in up <==> m > 0 && m - 1 in xs
  {
    if m > 0 && m - 1 in xs {
      var k :| 0 <= k < |xs| && xs[k] == m - 1;
      assert up[k] == m;
    }
  }

  lemma CheckedAll(slabs: seq<Slab>)
    ensures NoneUnchecked(Checked(slabs))
  {
    var at := CheckedMeaning(slabs);
    forall k | 0 <= k < |at| ensures !Checked(slabs)[k].finding.Unchecked? {
      assert at[k] in at;
    }
  }

  /** The free objects of the slabs, taken together. */
  lemma {:induction false} FreeAdds(a: seq<Slab>, b: seq<Slab>, slab: Slab)
    ensures TotalFree(a + b) == TotalFree(a) + TotalFree(b)
    ensures TotalFree([slab]) == slab.free
    decreases |a|
  {
    assert [slab][1..] == [];
    if a == [] {
      assert a + b == b;
    } else {
      FreeAdds(a[1..], b, slab);
      assert (a + b)[1..] == a[1..] + b;
    }
  }

  // ----- The report as it is made -----

  /** The `errors` dictionary, and what has been printed. */
  class Tally {
    var numOk: nat
    var firstOk: Option<Addr>
    var lastOk: Option<Addr>
    var numMisplaced: nat
    var lastMisplaced: Option<string>
    var printed: seq<Report>

    constructor ()
      ensures Holds([], []) && printed == []
    {
      numOk, firstOk, lastOk, numMisplaced, lastMisplaced, printed := 0, None, None, 0, None, [];
    }

    /** The counters describe the run in progress; `closed` is what has been printed
        about earlier ones. */
    ghost predicate Holds(closed: seq<Report>, run: seq<Slab>)
      reads this
    {
      && Uniform(run)
      && (numOk == 0 || numMisplaced == 0)
      && (run == [] ==> numOk == 0 && numMisplaced == 0 && firstOk.None? && printed == closed)
      && (run != [] ==> Describes(closed, run))
    }

    ghost predicate Describes(closed: seq<Report>, run: seq<Slab>)
      requires run != []
      reads this
    {
      var last := run[|run| - 1];
      && SameKind(run[0].finding, last.finding)
      && !run[0].finding.Faulty? && !run[0].finding.Unchecked?
      && (run[0].finding.Good? ==>
            && numOk == |run| && numMisplaced == 0 && firstOk == Some(FirstAddr(run)) && lastOk == Some(last.addr)
            && printed == closed)
      && (run[0].finding.Misplaced? ==>
            && numMisplaced == |run| && numOk == 0 && lastMisplaced == Some(last.finding.note) && firstOk.None?
            && printed == closed + [MisplacedFirst(run[0].finding.note)])
    }

    /** `__check_slab`, after the slab's own check. */
    method Note(slab: Slab, ghost closed: seq<Report>, ghost run: seq<Slab>)
      requires Holds(closed, run) && !slab.finding.Unchecked?
      modifies this
      ensures Holds(NextClosed(closed, run, slab), NextRun(run, slab))
    {
      if !slab.finding.Misplaced? && numMisplaced > 0 {
        printed := printed + [MisplacedRun(numMisplaced, lastMisplaced.value)];
        numMisplaced, lastMisplaced := 0, None;
      }
      if slab.finding.Good? {
        FirstAddrGrows(if run != [] && run[0].finding.Good? then run else [], slab);
        numOk := numOk + 1;
        lastOk := Some(slab.addr);
        if firstOk.None? || firstOk.value == 0 {
          firstOk := Some(slab.addr);
        }
      } else {
        if numOk > 0 {
          printed := printed + [GoodRange(numOk, firstOk.value, lastOk.value)];
          numOk, firstOk, lastOk := 0, None, None;
        }
        if slab.finding.Misplaced? {
          if numMisplaced == 0 {
            printed := printed + [MisplacedFirst(slab.finding.note)];
          }
          numMisplaced := numMisplaced + 1;
          lastMisplaced := Some(slab.finding.note);
        }
      }
    }

    /** What is still open is printed at the end of the list. */
    method Flush(ghost closed: seq<Report>, ghost run: seq<Slab>)
      requires Holds(closed, run)
      modifies this`printed
      ensures printed == closed + if run == [] then [] else RunReport(run)
    {
      if numOk > 0 && firstOk.Some? && lastOk.Some? {
        printed := printed + [GoodRange(numOk, firstOk.value, lastOk.value)];
      }
      if numMisplaced > 0 {
        printed := printed + [MisplacedRun(numMisplaced, lastMisplaced.value)];
      }
    }
  }

  /** A slab of another kind ends the run in progress. */
  ghost predicate Ends(run: seq<Slab>, slab: Slab) {
    run != [] && !SameKind(run[0].finding, slab.finding)
  }

  ghost function NextClosed(closed: seq<Report>, run: seq<Slab>, slab: Slab): seq<Report> {
    if Ends(run, slab) then closed + RunReport(run) else closed
  }

  ghost function NextRun(run: seq<Slab>, slab: Slab): seq<Slab> {
    if slab.finding.Faulty? then [] else if Ends(run, slab) then [slab] else run + [slab]
  }

  lemma NextReports(closed: seq<Report>, run: seq<Slab>, slab: Slab, rest: seq<Slab>)
    requires Uniform(run) && (run != [] ==> !run[0].finding.Faulty?)
    ensures NextClosed(closed, run, slab) + Reports(NextRun(run, slab) + rest) ==
              closed + Reports(run + ([slab] + rest))
  {
    var coming := [slab] + rest;
    if slab.finding.Faulty? {
      FaultySkipped(coming);
      assert coming[1..] == rest && [] + rest == rest;
    }
    if Ends(run, slab) {
      RunCloses(run, coming);
      assert (closed + RunReport(run)) + Reports(coming) == closed + (RunReport(run) + Reports(coming));
    } else if slab.finding.Faulty? {
      assert run == [] && run + coming == coming;
    } else {
      assert (run + [slab]) + rest == run + coming;
    }
  }

  /** `___check_slabs`: the loop over one list, and the flush after it.  The slabs'
      own checks have been made; the report is the one that reads off the maximal
      runs, and nothing is lost in it. */
  method CheckSlabs(slabs: seq<Slab>) returns (printed: seq<Report>, free: nat)
    ensures printed == Reports(Checked(slabs))
    ensures free == TotalFree(Checked(slabs))
    ensures ReportedGood(printed) == CountGood(slabs) && ReportedMisplaced(printed) == CountMisplaced(slabs)
    ensures exists xs, at :: ReadsOff(Checked(slabs), 0, xs, at, printed)
  {
    CheckedAll(slabs);
    ghost var xs, at := ReportsReadOff(Checked(slabs));
    var errors := new Tally();
    ghost var closed, run;
    free, closed, run := NoteAll(errors, slabs);
    errors.Flush(closed, run);
    printed := errors.printed;
    ReportsAddUp(Checked(slabs));
    CheckedCounts(slabs);
  }

  method NoteAll(errors: Tally, slabs: seq<Slab>) returns (free: nat, ghost closed: seq<Report>, ghost run: seq<Slab>)
    requires errors.Holds([], [])
    modifies errors
    ensures errors.Holds(closed, run)
    ensures Reports(Checked(slabs)) == closed + if run == [] then [] else RunReport(run)
    ensures free == TotalFree(Checked(slabs))
  {
    free, closed, run := 0, [], [];
    var i := 0;
    FirstRun(slabs);
    while i < |slabs|
      invariant 0 <= i <= |slabs|
      invariant errors.Holds(closed, run)
      invariant closed + Reports(run + Checked(slabs[i..])) == Reports(Checked(slabs))
      invariant free + TotalFree(Checked(slabs[i..])) == TotalFree(Checked(slabs))
    {
      CheckedNext(slabs, i);
      if !slabs[i].finding.Unchecked? {
        free := free + slabs[i].free;
        closed, run := NoteOne(errors, slabs[i], closed, run, Checked(slabs[i + 1..]));
      }
      i := i + 1;
    }
    assert Uniform(run);
    LastRun(slabs, closed, run);
  }

  method NoteOne(errors: Tally, slab: Slab, ghost closed: seq<Report>, ghost run: seq<Slab>, ghost rest: seq<Slab>)
    returns (ghost closed': seq<Report>, ghost run': seq<Slab>)
    requires errors.Holds(closed, run) && !slab.finding.Unchecked?
    modifies errors
    ensures errors.Holds(closed', run')
    ensures closed' + Reports(run' + rest) == closed + Reports(run + ([slab] + rest))
  {
    NextReports(closed, run, slab, rest);
    errors.Note(slab, closed, run);
    closed', run' := NextClosed(closed, run, slab), NextRun(run, slab);
  }

  lemma FirstRun(slabs: seq<Slab>)
    ensures [] + Reports([] + Checked(slabs[0..])) == Reports(Checked(slabs))
    ensures TotalFree(Checked(slabs[0..])) == TotalFree(Checked(slabs))
  {
    assert slabs[0..] == slabs;
    assert [] + Checked(slabs) == Checked(slabs);
  }

  lemma CheckedNext(slabs: seq<Slab>, i: nat)
    requires i < |slabs|
    ensures Checked(slabs[i..]) == (if slabs[i].finding.Unchecked? then [] else [slabs[i]]) + Checked(slabs[i + 1..])
    ensures slabs[i].finding.Unchecked? ==> Checked(slabs[i..]) == Checked(slabs[i + 1..])
    ensures !slabs[i].finding.Unchecked? ==>
              TotalFree(Checked(slabs[i..])) == slabs[i].free + TotalFree(Checked(slabs[i + 1..]))
  {
    assert slabs[i..][1..] == slabs[i + 1..];
    var rest := Checked(slabs[i + 1..]);
    assert ([slabs[i]] + rest)[1..] == rest;
    assert [] + rest == rest;
  }

  /** The run that is open at the end of the list. */
  lemma LastRun(slabs: seq<Slab>, closed: seq<Report>, run: seq<Slab>)
    requires Uniform(run)
    ensures closed + Reports(run + Checked(slabs[|slabs|..])) == closed + if run == [] then [] else RunReport(run)
    ensures TotalFree(Checked(slabs[|slabs|..])) == 0
  {
    assert slabs[|slabs|..] == [] && run + [] == run;
    if run != [] {
      RunCloses(run, []);
      assert RunReport(run) + [] == RunReport(run);
    }
  }

  lemma {:induction false} FirstAddrGrows(run: seq<Slab>, slab: Slab)
    ensures run == [] ==> FirstAddr(run + [slab]) == slab.addr
    ensures run != [] ==> FirstAddr(run + [slab]) == if FirstAddr(run) == 0 then slab.addr else FirstAddr(run)
    decreases |run|
  {
    if |run| > 1 {
      FirstAddrGrows(run[1..], slab);
      assert (run + [slab])[1..] == run[1..] + [slab];
    } else if |run| == 1 {
      assert (run + [slab])[1..] == [slab];
    }
  }
}
