/** The area maps of dynamic per-cpu chunks (crash/types/percpu.py): two kernel
    encodings, told apart by a heuristic, decoded into a list of used intervals. */
module Percpu {
  import opened Collections

  datatype Area = Area(used: bool, size: nat)

  /** A half-open interval of offsets. */
  datatype Range = Range(start: int, end: int)

  /** `map_` is what can be read of the chunk's array, of which `used` entries count
      and one more is looked at. */
  datatype Chunk = Chunk(base: int, map_: seq<int>, used: nat)

  // ----- What the kernel writes -----

  /** Areas have positive even sizes. */
  ghost predicate Proper(areas: seq<Area>) {
    forall i :: 0 <= i < |areas| ==> areas[i].size > 0 && areas[i].size % 2 == 0
  }

  /** Areas are not empty. */
  ghost predicate Sized(areas: seq<Area>) {
    forall i :: 0 <= i < |areas| ==> areas[i].size > 0
  }

  ghost function Total(areas: seq<Area>): nat {
    if areas == [] then 0 else areas[0].size + Total(areas[1..])
  }

  /** Before 3.14: the size of a free area, minus the size of a used one. */
  ghost function Lengths(areas: seq<Area>): seq<int> {
    if areas == [] then []
    else [if areas[0].used then -(areas[0].size as int) else areas[0].size] + Lengths(areas[1..])
  }

  /** Since 3.14: the offset of an area, with the low bit set for a used one, ... */
  ghost function Starts(areas: seq<Area>, off: nat): (vals: seq<int>)
    ensures |vals| == |areas| && forall i :: 0 <= i < |vals| ==> vals[i] >= 0
  {
    if areas == [] then []
    else [if areas[0].used then off + 1 else off] + Starts(areas[1..], off + areas[0].size)
  }

  /** ... and after the last area a sentry, the total size with the low bit set. */
  ghost function Offsets(areas: seq<Area>): seq<int> {
    Starts(areas, 0) + [Total(areas) + 1]
  }

  // ----- Used intervals -----

  /** x is an offset inside a used area, the first area starting at `off`. */
  ghost predicate InUsed(areas: seq<Area>, off: int, x: int) {
    areas != [] &&
    ((areas[0].used && off <= x < off + areas[0].size) || InUsed(areas[1..], off + areas[0].size, x))
  }

  /** A run in progress that started at `start` ends at `off`. */
  function Close(start: Option<int>, off: int): seq<Range> {
    if start.Some? then [Range(start.value, off)] else []
  }

  function OpenAt(start: Option<int>, off: int): Option<int> {
    if start.Some? then start else Some(off)
  }

  /** The maximal runs of used areas; `open` is where a run in progress started. */
  ghost function Runs(areas: seq<Area>, off: int, open: Option<int>): seq<Range> {
    if areas == [] then Close(open, off)
    else if areas[0].used then Runs(areas[1..], off + areas[0].size, OpenAt(open, off))
    else Close(open, off) + Runs(areas[1..], off + areas[0].size, None)
  }

  ghost predicate Covered(rs: seq<Range>, x: int) {
    exists i :: 0 <= i < |rs| && rs[i].start <= x < rs[i].end
  }

  /** Non-empty, in ascending order, and never touching: nothing could be merged. */
  ghost predicate Apart(rs: seq<Range>) {
    && (forall i :: 0 <= i < |rs| ==> rs[i].start < rs[i].end)
    && (forall i, j :: 0 <= i < j < |rs| ==> rs[i].end < rs[j].start)
  }

  lemma CoveredFirst(r: Range, rs: seq<Range>, x: int)
    ensures Covered([r] + rs, x) <==> r.start <= x < r.end || Covered(rs, x)
  {
    var all := [r] + rs;
    if Covered(rs, x) {
      var i :| 0 <= i < |rs| && rs[i].start <= x < rs[i].end;
      assert all[i + 1] == rs[i];
    }
    assert all[0] == r;
  }

  ghost function Since(open: Option<int>, off: int): int {
    if open.Some? then open.value else off
  }

  lemma {:induction false} RunsApart(areas: seq<Area>, off: int, open: Option<int>)
    requires Sized(areas)
    requires open.Some? ==> open.value < off
    ensures Apart(Runs(areas, off, open))
    ensures forall i :: 0 <= i < |Runs(areas, off, open)| ==> Since(open, off) <= Runs(areas, off, open)[i].start
    decreases areas
  {
    if areas != [] {
      var next := if areas[0].used then OpenAt(open, off) else None;
      RunsApart(areas[1..], off + areas[0].size, next);
    }
  }

  lemma {:induction false} RunsCover(areas: seq<Area>, off: int, open: Option<int>, x: int)
    requires Sized(areas)
    requires open.Some? ==> open.value < off
    ensures Covered(Runs(areas, off, open), x) <==>
              (open.Some? && open.value <= x < off) || InUsed(areas, off, x)
    decreases areas
  {
    if areas == [] {
      CoveredClosed(open, off, [], x);
    } else {
      var end, next := off + areas[0].size, if areas[0].used then OpenAt(open, off) else None;
      RunsCover(areas[1..], end, next, x);
      CoveredClosed(open, off, Runs(areas[1..], end, None), x);
    }
  }

  lemma CoveredClosed(open: Option<int>, off: int, rs: seq<Range>, x: int)
    ensures Covered(Close(open, off) + rs, x) <==> (open.Some? && open.value <= x < off) || Covered(rs, x)
    ensures Close(open, off) + [] == Close(open, off)
  {
    if open.Some? {
      CoveredFirst(Range(open.value, off), rs, x);
    } else {
      assert [] + rs == rs;
    }
  }

  /** The runs are the used offsets, in maximal pieces. */
  lemma RunsAreMaximal(areas: seq<Area>, off: int, open: Option<int>)
    requires Sized(areas)
    requires open.Some? ==> open.value < off
    ensures var rs := Runs(areas, off, open);
            && Apart(rs)
            && (forall i :: 0 <= i < |rs| ==> Since(open, off) <= rs[i].start)
            && (forall x :: Covered(rs, x) <==> (open.Some? && open.value <= x < off) || InUsed(areas, off, x))
  {
    RunsApart(areas, off, open);
    forall x ensures Covered(Runs(areas, off, open), x) <==>
                       (open.Some? && open.value <= x < off) || InUsed(areas, off, x)
    {
      RunsCover(areas, off, open, x);
    }
  }

  // ----- Decoding -----

  function Abs(x: int): nat {
    if x < 0 then -x else x
  }

  predicate HasNegative(vals: seq<int>) {
    exists i :: 0 <= i < |vals| && vals[i] < 0
  }

  /** The signed-length decoder; `start` is the run in progress, which is lost if
      the rest of the array cannot be read. */
  function FromLengths(vals: seq<int>, off: int, start: Option<int>, whole: bool): seq<Range> {
    if vals == [] then if whole then Close(start, off) else []
    else if vals[0] < 0 then FromLengths(vals[1..], off + Abs(vals[0]), OpenAt(start, off), whole)
    else Close(start, off) + FromLengths(vals[1..], off + Abs(vals[0]), None, whole)
  }

  /** The offset decoder: the runs it closes before the last entry, ... */
  function FromOffsets(vals: seq<int>, start: Option<int>): seq<Range> {
    if vals == [] then []
    else if vals[0] % 2 == 1 then FromOffsets(vals[1..], OpenAt(start, vals[0] - 1))
    else Close(start, vals[0]) + FromOffsets(vals[1..], None)
  }

  /** ... and the one it leaves to the sentry to close. */
  function OpenAtEnd(vals: seq<int>, start: Option<int>): Option<int> {
    if vals == [] then start
    else if vals[0] % 2 == 1 then OpenAtEnd(vals[1..], OpenAt(start, vals[0] - 1))
    else OpenAtEnd(vals[1..], None)
  }

  function Shift(base: int, rs: seq<Range>): (r: seq<Range>)
    ensures |r| == |rs| && forall i :: 0 <= i < |rs| ==> r[i] == Range(base + rs[i].start, base + rs[i].end)
  {
    seq(|rs|, i requires 0 <= i < |rs| => Range(base + rs[i].start, base + rs[i].end))
  }

  /** The entries that count, as far as they can be read. */
  function Entries(c: Chunk): seq<int> {
    if c.used <= |c.map_| then c.map_[..c.used] else c.map_
  }

  /** Everything the decoder reads is there. */
  predicate Readable(c: Chunk) {
    && c.used <= |c.map_|
    && (HasNegative(Entries(c)) || OpenAtEnd(Entries(c), None).None? || c.used < |c.map_|)
  }

  /** The intervals of one chunk, relative to the chunk: all of them, or those that
      are complete when a read fails. */
  function Decode(c: Chunk): seq<Range> {
    var vals := Entries(c);
    if HasNegative(vals) then FromLengths(vals, 0, None, c.used <= |c.map_|)
    else if c.used > |c.map_| then []
    else FromOffsets(vals, None) + Sentry(c, OpenAtEnd(vals, None))
  }

  /** The run that the sentry closes. */
  function Sentry(c: Chunk, open: Option<int>): seq<Range> {
    if open.Some? && c.used < |c.map_| then Close(open, c.map_[c.used] - 1) else []
  }

  // ----- Both encodings decode to the used runs -----

  lemma LengthsFirst(areas: seq<Area>)
    requires Sized(areas) && areas != []
    ensures var vals := Lengths(areas);
            && vals != [] && vals[1..] == Lengths(areas[1..])
            && (vals[0] < 0 <==> areas[0].used) && Abs(vals[0]) == areas[0].size
  {
    var vals := Lengths(areas);
    assert vals[1..] == Lengths(areas[1..]);
  }

  lemma {:induction false} LengthsDecode(areas: seq<Area>, off: int, open: Option<int>)
    requires Sized(areas)
    ensures FromLengths(Lengths(areas), off, open, true) == Runs(areas, off, open)
    decreases areas
  {
    if areas != [] {
      LengthsFirst(areas);
      LengthsDecode(areas[1..], off + areas[0].size, if areas[0].used then OpenAt(open, off) else None);
    }
  }

  /** A negative entry stands for a used area. */
  lemma {:induction false} LengthsAt(areas: seq<Area>)
    requires Proper(areas)
    ensures |Lengths(areas)| == |areas|
    ensures forall i :: 0 <= i < |areas| ==> (Lengths(areas)[i] < 0 <==> areas[i].used)
    decreases areas
  {
    if areas != [] {
      LengthsAt(areas[1..]);
      forall i | 0 <= i < |areas| ensures Lengths(areas)[i] < 0 <==> areas[i].used {
        assert i > 0 ==> Lengths(areas)[i] == Lengths(areas[1..])[i - 1] && areas[i] == areas[1..][i - 1];
      }
    }
  }

  /** All the runs of the offset decoder, given where the last area ends. */
  ghost function AllRuns(vals: seq<int>, open: Option<int>, end: int): seq<Range> {
    if vals == [] then Close(open, end)
    else if vals[0] % 2 == 1 then AllRuns(vals[1..], OpenAt(open, vals[0] - 1), end)
    else Close(open, vals[0]) + AllRuns(vals[1..], None, end)
  }

  lemma {:induction false} AllRunsSplit(vals: seq<int>, open: Option<int>, end: int)
    ensures AllRuns(vals, open, end) == FromOffsets(vals, open) + Close(OpenAtEnd(vals, open), end)
  {
    if vals != [] {
      AllRunsSplit(vals[1..], if vals[0] % 2 == 1 then OpenAt(open, vals[0] - 1) else None, end);
    }
  }

  lemma {:induction false} OffsetsDecode(areas: seq<Area>, off: nat, open: Option<int>)
    requires Proper(areas) && off % 2 == 0
    ensures Runs(areas, off, open) == AllRuns(Starts(areas, off), open, off + Total(areas))
    decreases areas
  {
    if areas != [] {
      var vals, next := Starts(areas, off), off + areas[0].size;
      assert vals[1..] == Starts(areas[1..], next);
      assert vals[0] % 2 == 1 <==> areas[0].used;
      assert next % 2 == 0 && Proper(areas[1..]);
      OffsetsDecode(areas[1..], next, if areas[0].used then OpenAt(open, off) else None);
    }
  }

  /** A map without used areas looks the same to both decoders. */
  lemma {:induction false} NoneUsed(areas: seq<Area>, off: int)
    requires Proper(areas) && forall i :: 0 <= i < |areas| ==> !areas[i].used
    ensures |Lengths(areas)| == |areas|
    ensures FromOffsets(Lengths(areas), None) == [] && OpenAtEnd(Lengths(areas), None).None?
    ensures Runs(areas, off, None) == []
    decreases areas
  {
    if areas != [] {
      assert Lengths(areas)[1..] == Lengths(areas[1..]);
      NoneUsed(areas[1..], off + areas[0].size);
    }
  }

  /** The chunk's array holds the areas in one of the two encodings. */
  ghost predicate Encodes(c: Chunk, areas: seq<Area>) {
    && Proper(areas) && c.used == |areas| <= |c.map_|
    && (c.map_[..c.used] == Lengths(areas)
        || (c.used < |c.map_| && c.map_[..c.used + 1] == Offsets(areas)))
  }

  lemma LengthsDecoded(c: Chunk, areas: seq<Area>)
    requires Proper(areas) && c.used == |areas| <= |c.map_| && Entries(c) == Lengths(areas)
    ensures Readable(c) && Decode(c) == Runs(areas, 0, None)
  {
    LengthsAt(areas);
    if HasNegative(Entries(c)) {
      LengthsDecode(areas, 0, None);
    } else {
      forall i | 0 <= i < |areas| ensures !areas[i].used {
        assert Entries(c)[i] >= 0;
      }
      NoneUsed(areas, 0);
    }
  }

  lemma OffsetsDecoded(c: Chunk, areas: seq<Area>)
    requires Proper(areas) && c.used == |areas| < |c.map_| && c.map_[..c.used + 1] == Offsets(areas)
    ensures Readable(c) && Decode(c) == Runs(areas, 0, None)
  {
    var vals, open := Entries(c), OpenAtEnd(Entries(c), None);
    OffsetsDecode(areas, 0, None);
    AllRunsSplit(vals, None, Total(areas));
    assert Starts(areas, 0) == c.map_[..c.used + 1][..c.used] == vals;
    assert c.map_[c.used] == c.map_[..c.used + 1][c.used] == Total(areas) + 1;
    assert Sentry(c, open) == Close(open, Total(areas));
  }

  /** Whichever encoding a chunk uses, and whichever the heuristic takes it for,
      decoding gives the maximal runs of used areas. */
  lemma DecodesUsedRuns(c: Chunk, areas: seq<Area>)
    requires Encodes(c, areas)
    ensures Readable(c) && Decode(c) == Runs(areas, 0, None)
  {
    if c.map_[..c.used] == Lengths(areas) {
      LengthsDecoded(c, areas);
    } else {
      OffsetsDecoded(c, areas);
    }
  }

  // ----- The cache -----

  predicate AllReadable(chunks: seq<Chunk>) {
    chunks == [] || (Readable(chunks[0]) && AllReadable(chunks[1..]))
  }

  /** The intervals of the chunks, as addresses: of all, or up to the first read
      that fails. */
  function Gathered(chunks: seq<Chunk>): seq<Range> {
    if chunks == [] then []
    else Shift(chunks[0].base, Decode(chunks[0])) + if Readable(chunks[0]) then Gathered(chunks[1..]) else []
  }

  lemma ShiftConcat(base: int, xs: seq<Range>, ys: seq<Range>)
    ensures Shift(base, xs + ys) == Shift(base, xs) + Shift(base, ys)
  {
  }

  lemma GatheredStep(chunks: seq<Chunk>, i: nat, done: seq<Range>)
    requires i < |chunks|
    ensures AllReadable(chunks[i..]) <==> Readable(chunks[i]) && AllReadable(chunks[i + 1..])
    ensures done + Gathered(chunks[i..]) ==
              (done + Shift(chunks[i].base, Decode(chunks[i]))) +
              if Readable(chunks[i]) then Gathered(chunks[i + 1..]) else []
  {
    TailFrom(chunks, i);
    Regroup(done, Shift(chunks[i].base, Decode(chunks[i])),
            if Readable(chunks[i]) then Gathered(chunks[i + 1..]) else []);
  }

  /** The signed-length loop at index i has added `done`. */
  ghost predicate Decoding(c: Chunk, i: nat, off: int, start: Option<int>, done: seq<Range>) {
    && i <= |Entries(c)|
    && done + FromLengths(Entries(c)[i..], off, start, c.used <= |c.map_|) ==
         FromLengths(Entries(c), 0, None, c.used <= |c.map_|)
  }

  lemma DecodingBegins(c: Chunk)
    ensures Decoding(c, 0, 0, None, [])
  {
    assert Entries(c)[0..] == Entries(c);
    assert forall rs: seq<Range> :: [] + rs == rs;
  }

  lemma DecodingNext(c: Chunk, i: nat, off: int, start: Option<int>, done: seq<Range>)
    requires Decoding(c, i, off, start, done) && i < |Entries(c)|
    ensures var val := Entries(c)[i];
            Decoding(c, i + 1, off + Abs(val), if val < 0 then OpenAt(start, off) else None,
                     if val < 0 then done else done + Close(start, off))
  {
    var vals, whole := Entries(c), c.used <= |c.map_|;
    assert vals[i..][1..] == vals[i + 1..] && vals[i..][0] == vals[i];
    var rest := FromLengths(vals[i + 1..], off + Abs(vals[i]), None, whole);
    assert done + (Close(start, off) + rest) == (done + Close(start, off)) + rest;
  }

  lemma DecodingEnds(c: Chunk, i: nat, off: int, start: Option<int>, done: seq<Range>)
    requires Decoding(c, i, off, start, done) && i == |Entries(c)|
    ensures FromLengths(Entries(c), 0, None, c.used <= |c.map_|) ==
              if c.used <= |c.map_| then done + Close(start, off) else done
  {
    assert Entries(c)[i..] == [] && done + [] == done;
  }

  lemma OffsetsStep(vals: seq<int>, i: nat, start: Option<int>, done: seq<Range>)
    requires i < |vals|
    ensures var next := if vals[i] % 2 == 1 then OpenAt(start, vals[i] - 1) else None;
            && OpenAtEnd(vals[i..], start) == OpenAtEnd(vals[i + 1..], next)
            && done + FromOffsets(vals[i..], start) ==
                 (if vals[i] % 2 == 1 then done else done + Close(start, vals[i])) + FromOffsets(vals[i + 1..], next)
  {
    assert vals[i..][1..] == vals[i + 1..];
  }

  class PerCPUState {
    const chunks: seq<Chunk>
    var cache: seq<Range>

    /** The cache is empty, or what could be gathered from the chunks. */
    ghost predicate Valid()
      reads this
    {
      cache == [] || cache == Gathered(chunks)
    }

    constructor (chunks: seq<Chunk>)
      ensures Valid() && cache == [] && this.chunks == chunks
    {
      this.chunks, cache := chunks, [];
    }

    method AddToCache(base: int, start: int, end: int)
      modifies this
      ensures cache == old(cache) + Shift(base, [Range(start, end)])
    {
      cache := cache + [Range(base + start, base + end)];
    }

    /** `_setup_dynamic_offset_cache_area_map`; `ok` is false if a read fails, and
        then the intervals complete by then stay in the cache. */
    method AddAreaMap(c: Chunk) returns (ok: bool)
      modifies this
      ensures ok <==> Readable(c)
      ensures cache == old(cache) + Shift(c.base, Decode(c))
    {
      var usedIsNegative := false;
      var i := 0;
      while i < c.used
        invariant 0 <= i <= c.used && i <= |c.map_| && !usedIsNegative
        invariant forall k :: 0 <= k < i ==> c.map_[k] >= 0
      {
        if i >= |c.map_| {
          assert Shift(c.base, []) == [];
          return false;
        }
        if c.map_[i] < 0 {
          usedIsNegative := true;
          break;
        }
        i := i + 1;
      }
      assert usedIsNegative ==> Entries(c)[i] < 0;
      if usedIsNegative {
        ok := AddLengths(c);
      } else {
        ok := AddOffsets(c);
      }
    }

    method AddLengths(c: Chunk) returns (ok: bool)
      modifies this
      ensures ok <==> c.used <= |c.map_|
      ensures cache == old(cache) + Shift(c.base, FromLengths(Entries(c), 0, None, ok))
    {
      ghost var done: seq<Range> := [];
      var off, i := 0, 0;
      var start: Option<int> := None;
      DecodingBegins(c);
      while i < c.used
        invariant 0 <= i <= c.used
        invariant cache == old(cache) + Shift(c.base, done)
        invariant Decoding(c, i, off, start, done)
      {
        if i >= |c.map_| {
          DecodingEnds(c, i, off, start, done);
          return false;
        }
        DecodingNext(c, i, off, start, done);
        done, start := LengthEntry(c.base, c.map_[i], off, start, done, old(cache));
        off := off + Abs(c.map_[i]);
        i := i + 1;
      }
      DecodingEnds(c, i, off, start, done);
      done := CloseRun(c.base, start, off, done, old(cache));
      return true;
    }

    /** One signed length: a used area opens a run or is part of it, a free one
        closes it. */
    method LengthEntry(base: int, val: int, off: int, start: Option<int>,
                       ghost done: seq<Range>, ghost before: seq<Range>)
      returns (ghost done': seq<Range>, start': Option<int>)
      requires cache == before + Shift(base, done)
      modifies this
      ensures start' == if val < 0 then OpenAt(start, off) else None
      ensures done' == if val < 0 then done else done + Close(start, off)
      ensures cache == before + Shift(base, done')
    {
      if val < 0 {
        return done, OpenAt(start, off);
      }
      done' := CloseRun(base, start, off, done, before);
      start' := None;
    }

    /** Adds the run in progress, if there is one. */
    method CloseRun(base: int, start: Option<int>, off: int, ghost done: seq<Range>, ghost before: seq<Range>)
      returns (ghost done': seq<Range>)
      requires cache == before + Shift(base, done)
      modifies this
      ensures done' == done + Close(start, off)
      ensures cache == before + Shift(base, done')
    {
      done' := done + Close(start, off);
      ShiftConcat(base, done, Close(start, off));
      if start.Some? {
        AddToCache(base, start.value, off);
      }
    }

    method AddOffsets(c: Chunk) returns (ok: bool)
      requires c.used <= |c.map_|
      modifies this
      ensures var open := OpenAtEnd(Entries(c), None);
              && (ok <==> open.None? || c.used < |c.map_|)
              && cache == old(cache) + Shift(c.base, FromOffsets(Entries(c), None) + Sentry(c, open))
    {
      ghost var runs := FromOffsets(Entries(c), None);
      var start := AddClosed(c);
      if start.Some? && c.used >= |c.map_| {
        assert runs + [] == runs;
        return false;
      }
      ok := true;
      if start.Some? {
        runs := CloseRun(c.base, start, c.map_[c.used] - 1, runs, old(cache));
      } else {
        assert runs + [] == runs;
      }
    }

    method AddClosed(c: Chunk) returns (start: Option<int>)
      requires c.used <= |c.map_|
      modifies this
      ensures start == OpenAtEnd(Entries(c), None)
      ensures cache == old(cache) + Shift(c.base, FromOffsets(Entries(c), None))
    {
      ghost var vals := Entries(c);
      ghost var done: seq<Range> := [];
      var i := 0;
      start := None;
      assert vals[0..] == vals;
      while i < c.used
        invariant 0 <= i <= c.used
        invariant OpenAtEnd(vals[i..], start) == OpenAtEnd(vals, None)
        invariant cache == old(cache) + Shift(c.base, done)
        invariant done + FromOffsets(vals[i..], start) == FromOffsets(vals, None)
      {
        OffsetsStep(vals, i, start, done);
        done, start := OffsetEntry(c.base, c.map_[i], start, done, old(cache));
        i := i + 1;
      }
      assert done + [] == done;
    }

    /** One offset: likewise, the low bit marking a used area. */
    method OffsetEntry(base: int, val: int, start: Option<int>, ghost done: seq<Range>, ghost before: seq<Range>)
      returns (ghost done': seq<Range>, start': Option<int>)
      requires cache == before + Shift(base, done)
      modifies this
      ensures start' == if val % 2 == 1 then OpenAt(start, val - 1) else None
      ensures done' == if val % 2 == 1 then done else done + Close(start, val)
      ensures cache == before + Shift(base, done')
    {
      if val % 2 == 1 {
        return done, OpenAt(start, val - 1);
      }
      done' := CloseRun(base, start, val, done, before);
      start' := None;
    }

    /** `_setup_dynamic_offset_cache`; a failing read leaves what was gathered. */
    method SetupCache() returns (ok: bool)
      requires cache == []
      modifies this
      ensures ok <==> AllReadable(chunks)
      ensures cache == Gathered(chunks)
    {
      var i := 0;
      ok := true;
      assert chunks[0..] == chunks;
      while i < |chunks|
        invariant 0 <= i <= |chunks|
        invariant AllReadable(chunks) <==> AllReadable(chunks[i..])
        invariant Gathered(chunks) == cache + Gathered(chunks[i..])
      {
        GatheredStep(chunks, i, cache);
        ok := AddAreaMap(chunks[i]);
        if !ok {
          return;
        }
        i := i + 1;
      }
    }

    /** `_is_percpu_var_dynamic`: no answer if the cache is empty and reading fails;
        otherwise whether what was gathered, then or in an earlier call that
        failed, contains the address. */
    method IsDynamic(addr: int) returns (answer: Option<bool>)
      requires Valid()
      modifies this
      ensures cache == Gathered(chunks)
      ensures answer == if old(cache) == [] && !AllReadable(chunks) then None
                        else Some(Covered(Gathered(chunks), addr))
    {
      if cache == [] {
        var ok := SetupCache();
        if !ok {
          return None;
        }
      }
      var found := Find(addr);
      return Some(found);
    }

    method Find(addr: int) returns (found: bool)
      ensures found <==> Covered(cache, addr)
    {
      var i := 0;
      while i < |cache|
        invariant 0 <= i <= |cache|
        invariant forall k :: 0 <= k < i ==> !(cache[k].start <= addr < cache[k].end)
      {
        if cache[i].start <= addr < cache[i].end {
          return true;
        }
        i := i + 1;
      }
      return false;
    }
  }

  // ----- What the lookup means -----

  lemma ShiftCovered(base: int, rs: seq<Range>, x: int)
    ensures Covered(Shift(base, rs), x) <==> Covered(rs, x - base)
  {
    if i :| 0 <= i < |rs| && rs[i].start <= x - base < rs[i].end {
      assert Shift(base, rs)[i].start <= x < Shift(base, rs)[i].end;
    }
  }

  lemma CoveredConcat(xs: seq<Range>, ys: seq<Range>, x: int)
    ensures Covered(xs + ys, x) <==> Covered(xs, x) || Covered(ys, x)
  {
    var all := xs + ys;
    if i :| 0 <= i < |xs| && xs[i].start <= x < xs[i].end {
      assert all[i] == xs[i];
    }
    if i :| 0 <= i < |ys| && ys[i].start <= x < ys[i].end {
      assert all[|xs| + i] == ys[i];
    }
  }

  lemma ChunkLookup(c: Chunk, areas: seq<Area>, addr: int)
    requires Encodes(c, areas)
    ensures Readable(c)
    ensures Covered(Shift(c.base, Decode(c)), addr) <==> InUsed(areas, 0, addr - c.base)
  {
    DecodesUsedRuns(c, areas);
    ShiftCovered(c.base, Decode(c), addr);
    RunsAreMaximal(areas, 0, None);
  }

  /** The address lies in a used area of one of the chunks. */
  ghost predicate InSomeUsed(chunks: seq<Chunk>, areas: seq<seq<Area>>, addr: int)
    requires |areas| == |chunks|
  {
    exists i :: 0 <= i < |chunks| && InUsed(areas[i], 0, addr - chunks[i].base)
  }

  lemma InFirstOrRest(chunks: seq<Chunk>, areas: seq<seq<Area>>, addr: int)
    requires |areas| == |chunks| > 0
    ensures InSomeUsed(chunks, areas, addr) <==>
              InUsed(areas[0], 0, addr - chunks[0].base) || InSomeUsed(chunks[1..], areas[1..], addr)
  {
    if i :| 0 <= i < |chunks[1..]| && InUsed(areas[1..][i], 0, addr - chunks[1..][i].base) {
      assert InUsed(areas[i + 1], 0, addr - chunks[i + 1].base);
    }
    if i :| 0 <= i < |chunks| && InUsed(areas[i], 0, addr - chunks[i].base) {
      assert i > 0 ==> InUsed(areas[1..][i - 1], 0, addr - chunks[1..][i - 1].base);
    }
  }

  lemma CoveredFirstOrRest(chunks: seq<Chunk>, addr: int)
    requires chunks != [] && Readable(chunks[0])
    ensures Covered(Gathered(chunks), addr) <==>
              Covered(Shift(chunks[0].base, Decode(chunks[0])), addr) || Covered(Gathered(chunks[1..]), addr)
  {
    CoveredConcat(Shift(chunks[0].base, Decode(chunks[0])), Gathered(chunks[1..]), addr);
  }

  ghost predicate EncodesAll(chunks: seq<Chunk>, areas: seq<seq<Area>>) {
    |areas| == |chunks| && forall i :: 0 <= i < |chunks| ==> Encodes(chunks[i], areas[i])
  }

  lemma EncodesRest(chunks: seq<Chunk>, areas: seq<seq<Area>>)
    requires EncodesAll(chunks, areas) && chunks != []
    ensures Encodes(chunks[0], areas[0]) && EncodesAll(chunks[1..], areas[1..])
  {
    forall i | 0 <= i < |chunks| - 1 ensures Encodes(chunks[1..][i], areas[1..][i]) {
      assert Encodes(chunks[i + 1], areas[i + 1]);
    }
  }

  /** An address is found dynamic exactly when it lies in a used area of a chunk,
      in whichever encoding the chunks are. */
  lemma {:induction false} LookupMeaning(chunks: seq<Chunk>, areas: seq<seq<Area>>, addr: int)
    requires EncodesAll(chunks, areas)
    ensures AllReadable(chunks)
    ensures Covered(Gathered(chunks), addr) <==> InSomeUsed(chunks, areas, addr)
    decreases |chunks|
  {
    if chunks != [] {
      EncodesRest(chunks, areas);
      ChunkLookup(chunks[0], areas[0], addr);
      LookupMeaning(chunks[1..], areas[1..], addr);
      CoveredFirstOrRest(chunks, addr);
      InFirstOrRest(chunks, areas, addr);
    }
  }

  // ----- After a read that failed -----

  /** c is what can be read of d. */
  ghost predicate PartOf(c: Chunk, d: Chunk) {
    c.base == d.base && c.used == d.used && c.map_ <= d.map_
  }

  ghost predicate AllPartOf(chunks: seq<Chunk>, whole: seq<Chunk>) {
    |chunks| == |whole| && forall i :: 0 <= i < |chunks| ==> PartOf(chunks[i], whole[i])
  }

  lemma {:induction false} LengthsPart(vals: seq<int>, more: seq<int>, off: int, start: Option<int>, whole: bool)
    ensures FromLengths(vals, off, start, false) <= FromLengths(vals + more, off, start, whole)
    decreases |vals|
  {
    if vals != [] {
      assert (vals + more)[1..] == vals[1..] + more;
      LengthsPart(vals[1..], more, off + Abs(vals[0]), if vals[0] < 0 then OpenAt(start, off) else None, whole);
    }
  }

  /** What is decoded of a chunk that cannot all be read is the beginning of what
      there is to decode. */
  lemma DecodePart(c: Chunk, d: Chunk)
    requires PartOf(c, d)
    ensures Decode(c) <= Decode(d)
    ensures Readable(c) ==> Readable(d) && Decode(c) == Decode(d)
  {
    if c.used <= |c.map_| {
      assert Entries(c) == Entries(d);
    } else if HasNegative(Entries(c)) {
      var more := Entries(d)[|c.map_|..];
      assert Entries(d) == c.map_ + more;
      LengthsPart(c.map_, more, 0, None, d.used <= |d.map_|);
      var k :| 0 <= k < |c.map_| && c.map_[k] < 0;
      assert Entries(d)[k] < 0;
    }
  }

  lemma ShiftPart(base: int, xs: seq<Range>, ys: seq<Range>)
    requires xs <= ys
    ensures Shift(base, xs) <= Shift(base, ys)
  {
  }

  lemma {:induction false} GatheredPart(chunks: seq<Chunk>, whole: seq<Chunk>)
    requires AllPartOf(chunks, whole)
    ensures Gathered(chunks) <= Gathered(whole)
    decreases |chunks|
  {
    if chunks != [] {
      assert PartOf(chunks[0], whole[0]);
      DecodePart(chunks[0], whole[0]);
      ShiftPart(chunks[0].base, Decode(chunks[0]), Decode(whole[0]));
      forall i | 0 <= i < |chunks| - 1 ensures PartOf(chunks[1..][i], whole[1..][i]) {
        assert PartOf(chunks[i + 1], whole[i + 1]);
      }
      GatheredPart(chunks[1..], whole[1..]);
    }
  }

  /** After a set-up that failed, later calls find no address that is not used; they
      miss exactly the used ones that only lie in intervals not gathered. */
  lemma LateAnswers(chunks: seq<Chunk>, whole: seq<Chunk>, areas: seq<seq<Area>>, addr: int)
    requires AllPartOf(chunks, whole) && EncodesAll(whole, areas)
    ensures Gathered(chunks) <= Gathered(whole)
    ensures var lost := Gathered(whole)[|Gathered(chunks)|..];
            InSomeUsed(whole, areas, addr) <==> Covered(Gathered(chunks), addr) || Covered(lost, addr)
  {
    GatheredPart(chunks, whole);
    LookupMeaning(whole, areas, addr);
    var lost := Gathered(whole)[|Gathered(chunks)|..];
    assert Gathered(whole) == Gathered(chunks) + lost;
    CoveredConcat(Gathered(chunks), lost, addr);
  }

  // Two chunks of one used area each; the second one's array cannot be read.
  const AREAS := [[Area(true, 4)], [Area(true, 4)]]
  const WHOLE := [Chunk(0, [-4], 1), Chunk(100, [-4], 1)]
  const TORN := [Chunk(0, [-4], 1), Chunk(100, [], 1)]

  /** The first call gives no answer; every later one says that address 100, which
      is used, is not. */
  lemma ForgottenChunk()
    ensures AllPartOf(TORN, WHOLE) && EncodesAll(WHOLE, AREAS)
    ensures !AllReadable(TORN) && Gathered(TORN) != [] && !Covered(Gathered(TORN), 100)
    ensures InSomeUsed(WHOLE, AREAS, 100)
  {
    assert Entries(TORN[0])[0] < 0 && [-4][1..] == [];
    assert Decode(TORN[0]) == [Range(0, 4)];
    assert !Readable(TORN[1]) && Decode(TORN[1]) == [];
    assert TORN[1..] == [TORN[1]];
    assert InUsed(AREAS[1], 0, 100 - WHOLE[1].base);
  }
}
