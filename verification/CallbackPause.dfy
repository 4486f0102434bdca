/** Pausing the callback engine around a batch of objfile loads does not change
    which callbacks complete, if what callbacks look at only ever grows. */
module CallbackPause {
  import opened Callback
  import opened Collections
  import CallbackSafety

  /** A callback and the callbacks it registers when its code first runs. */
  datatype Plan = Plan(id: Id, waits: bool, kids: seq<Plan>)

  /** What callbacks find at each time: `time` counts what has been loaded. */
  datatype World = World(ready: (Id, nat) -> bool, agrees: (Id, nat) -> bool)

  ghost predicate Monotone(w: World) {
    && (forall id, t, t' :: t <= t' && w.ready(id, t) ==> w.ready(id, t'))
    && (forall id, t, t' :: t <= t' && w.agrees(id, t) ==> w.agrees(id, t'))
  }

  /** Its code runs when it is evaluated at time t. */
  predicate Runs(w: World, p: Plan, t: nat) {
    !p.waits && w.ready(p.id, t)
  }

  /** It runs and accepts. */
  predicate Fires(w: World, p: Plan, t: nat) {
    Runs(w, p, t) && w.agrees(p.id, t)
  }

  /** Whether it accepts or declines, it first registers its own callbacks; the
      engine ignores those it has registered before. */
  function ReplyOf(w: World, p: Plan, t: nat): Reply
    decreases p, 1
  {
    if !w.ready(p.id, t) then NotReady
    else if !w.agrees(p.id, t) then Declined(Registrations(w, p.kids, t))
    else Accepted(Registrations(w, p.kids, t))
  }

  function Registrations(w: World, ps: seq<Plan>, t: nat): (rs: seq<Registration>)
    ensures |rs| == |ps|
    decreases ps, 0
  {
    if ps == [] then []
    else [Registration(ps[0].id, ps[0].waits, ReplyOf(w, ps[0], t))] + Registrations(w, ps[1..], t)
  }

  // ----- Forests of callbacks -----

  ghost function Ids(p: Plan): set<Id>
    decreases p, 1
  {
    {p.id} + IdsAll(p.kids)
  }

  ghost function IdsAll(ps: seq<Plan>): set<Id>
    decreases ps, 0
  {
    if ps == [] then {} else Ids(ps[0]) + IdsAll(ps[1..])
  }

  /** No callback occurs twice. */
  ghost predicate Separate(ps: seq<Plan>)
    decreases ps
  {
    ps == [] ||
    (&& ps[0].id !in IdsAll(ps[0].kids) && Separate(ps[0].kids)
     && Ids(ps[0]) !! IdsAll(ps[1..]) && Separate(ps[1..]))
  }

  /** Who completes if these are evaluated at time t, registrations included. */
  ghost function Closure(w: World, ps: seq<Plan>, t: nat): set<Id>
    decreases ps, 0
  {
    if ps == [] then {} else ClosureOf(w, ps[0], t) + Closure(w, ps[1..], t)
  }

  ghost function ClosureOf(w: World, p: Plan, t: nat): set<Id>
    decreases p, 1
  {
    if Runs(w, p, t) then (if Fires(w, p, t) then {p.id} else {}) + Closure(w, p.kids, t) else {}
  }

  /** Who has been constructed then. */
  ghost function Known(w: World, ps: seq<Plan>, t: nat): set<Id>
    decreases ps, 0
  {
    if ps == [] then {} else KnownOf(w, ps[0], t) + Known(w, ps[1..], t)
  }

  ghost function KnownOf(w: World, p: Plan, t: nat): set<Id>
    decreases p, 1
  {
    {p.id} + if Runs(w, p, t) then Known(w, p.kids, t) else {}
  }

  /** What is left of a callback whose own callbacks have been registered. */
  function Opened(p: Plan): Plan {
    p.(kids := [])
  }

  /** Who is left pending then: those a callback registers, and itself unless it
      accepts. */
  ghost function Front(w: World, ps: seq<Plan>, t: nat): seq<Plan>
    decreases ps, 0
  {
    if ps == [] then [] else Newcomers(w, ps[0], t) + Stays(w, ps[0], t) + Front(w, ps[1..], t)
  }

  ghost function Newcomers(w: World, p: Plan, t: nat): seq<Plan>
    decreases p, 1
  {
    if Runs(w, p, t) then Front(w, p.kids, t) else []
  }

  ghost function Stays(w: World, p: Plan, t: nat): seq<Plan> {
    if Fires(w, p, t) then [] else if Runs(w, p, t) then [Opened(p)] else [p]
  }

  /** Evaluating it at time t changes nothing. */
  ghost predicate Still(w: World, p: Plan, t: nat) {
    !Fires(w, p, t) && (Runs(w, p, t) ==> p.kids == [])
  }

  ghost function IdSeq(ps: seq<Plan>): (xs: seq<Id>)
    ensures |xs| == |ps| && forall i :: 0 <= i < |ps| ==> xs[i] == ps[i].id
  {
    seq(|ps|, i requires 0 <= i < |ps| => ps[i].id)
  }

  lemma {:induction false} IdsConcat(ps: seq<Plan>, qs: seq<Plan>)
    ensures IdsAll(ps + qs) == IdsAll(ps) + IdsAll(qs)
    decreases |ps|
  {
    if ps == [] {
      assert ps + qs == qs;
    } else {
      IdsConcat(ps[1..], qs);
      assert (ps + qs)[1..] == ps[1..] + qs;
    }
  }

  lemma {:induction false} SeparateConcat(ps: seq<Plan>, qs: seq<Plan>)
    requires Separate(ps) && Separate(qs) && IdsAll(ps) !! IdsAll(qs)
    ensures Separate(ps + qs)
    decreases |ps|
  {
    if ps == [] {
      assert ps + qs == qs;
    } else {
      SeparateConcat(ps[1..], qs);
      IdsConcat(ps[1..], qs);
      assert (ps + qs)[1..] == ps[1..] + qs;
    }
  }

  lemma {:induction false} SetsConcat(w: World, ps: seq<Plan>, qs: seq<Plan>, t: nat)
    ensures Closure(w, ps + qs, t) == Closure(w, ps, t) + Closure(w, qs, t)
    ensures Known(w, ps + qs, t) == Known(w, ps, t) + Known(w, qs, t)
    decreases |ps|
  {
    if ps == [] {
      assert ps + qs == qs;
    } else {
      SetsConcat(w, ps[1..], qs, t);
      assert (ps + qs)[1..] == ps[1..] + qs;
    }
  }

  lemma Single(w: World, p: Plan, t: nat)
    ensures IdsAll([p]) == Ids(p) && Closure(w, [p], t) == ClosureOf(w, p, t) && Known(w, [p], t) == KnownOf(w, p, t)
    ensures Separate([p]) <==> p.id !in IdsAll(p.kids) && Separate(p.kids)
  {
    assert [p][1..] == [];
  }

  lemma {:induction false} KnownIds(w: World, ps: seq<Plan>, t: nat)
    ensures Known(w, ps, t) <= IdsAll(ps)
    ensures forall i :: 0 <= i < |ps| ==> ps[i].id in Known(w, ps, t)
    decreases ps
  {
    if ps != [] {
      KnownIds(w, ps[0].kids, t);
      KnownIds(w, ps[1..], t);
      assert forall i :: 1 <= i < |ps| ==> ps[i] == ps[1..][i - 1];
    }
  }

  lemma StaysSeparate(w: World, p: Plan, t: nat)
    requires p.id !in IdsAll(p.kids) && Separate(p.kids)
    ensures Separate(Stays(w, p, t)) && IdsAll(Stays(w, p, t)) <= Ids(p)
    ensures Runs(w, p, t) ==> IdsAll(Stays(w, p, t)) <= {p.id}
  {
    Single(w, p, t);
    Single(w, Opened(p), t);
  }

  lemma {:induction false} FrontSeparate(w: World, ps: seq<Plan>, t: nat)
    requires Separate(ps)
    ensures Separate(Front(w, ps, t)) && IdsAll(Front(w, ps, t)) <= IdsAll(ps)
    decreases ps, 0
  {
    if ps != [] {
      var p := ps[0];
      FrontOfSeparate(w, p, t);
      FrontSeparate(w, ps[1..], t);
      var first := Newcomers(w, p, t) + Stays(w, p, t);
      SeparateConcat(first, Front(w, ps[1..], t));
      IdsConcat(first, Front(w, ps[1..], t));
    }
  }

  lemma {:induction false} FrontOfSeparate(w: World, p: Plan, t: nat)
    requires p.id !in IdsAll(p.kids) && Separate(p.kids)
    ensures var first := Newcomers(w, p, t) + Stays(w, p, t);
            Separate(first) && IdsAll(first) <= Ids(p)
    ensures Separate(Newcomers(w, p, t)) && IdsAll(Newcomers(w, p, t)) <= IdsAll(p.kids)
    decreases p, 1
  {
    StaysSeparate(w, p, t);
    if Runs(w, p, t) {
      FrontSeparate(w, p.kids, t);
    }
    SeparateConcat(Newcomers(w, p, t), Stays(w, p, t));
    IdsConcat(Newcomers(w, p, t), Stays(w, p, t));
  }

  ghost predicate AllStill(w: World, ps: seq<Plan>, t: nat) {
    forall i :: 0 <= i < |ps| ==> Still(w, ps[i], t)
  }

  /** Nobody who is left has anything to do at the same time. */
  lemma {:induction false} FrontStill(w: World, ps: seq<Plan>, t: nat)
    ensures AllStill(w, Front(w, ps, t), t)
    decreases ps
  {
    if ps != [] {
      FrontStill(w, ps[1..], t);
      FrontStill(w, ps[0].kids, t);
      var newcomers, stays, rest := Newcomers(w, ps[0], t), Stays(w, ps[0], t), Front(w, ps[1..], t);
      assert AllStill(w, newcomers, t) && AllStill(w, stays, t) && AllStill(w, rest, t);
      assert AllStill(w, newcomers + stays + rest, t);
    }
  }

  /** Evaluating early and then late is as good as evaluating late. */
  lemma {:induction false} ClosureInStages(w: World, ps: seq<Plan>, t: nat, t': nat)
    requires Monotone(w) && t <= t'
    ensures Closure(w, ps, t') == Closure(w, ps, t) + Closure(w, Front(w, ps, t), t')
    ensures Known(w, ps, t') == Known(w, ps, t) + Known(w, Front(w, ps, t), t')
    decreases ps, 0
  {
    if ps != [] {
      OneInStages(w, ps[0], t, t');
      ClosureInStages(w, ps[1..], t, t');
      SetsConcat(w, Newcomers(w, ps[0], t) + Stays(w, ps[0], t), Front(w, ps[1..], t), t');
      SetsConcat(w, Newcomers(w, ps[0], t), Stays(w, ps[0], t), t');
    }
  }

  lemma {:induction false} OneInStages(w: World, p: Plan, t: nat, t': nat)
    requires Monotone(w) && t <= t'
    ensures ClosureOf(w, p, t') ==
              ClosureOf(w, p, t) + Closure(w, Newcomers(w, p, t), t') + Closure(w, Stays(w, p, t), t')
    ensures KnownOf(w, p, t') ==
              KnownOf(w, p, t) + Known(w, Newcomers(w, p, t), t') + Known(w, Stays(w, p, t), t')
    decreases p, 1
  {
    Single(w, p, t');
    Single(w, Opened(p), t');
    if Runs(w, p, t) {
      ClosureInStages(w, p.kids, t, t');
      assert Runs(w, p, t') && (Fires(w, p, t) ==> Fires(w, p, t'));
      assert Fires(w, Opened(p), t') == Fires(w, p, t') && Runs(w, Opened(p), t');
      assert ClosureOf(w, Opened(p), t') == if Fires(w, p, t') then {p.id} else {};
      assert KnownOf(w, Opened(p), t') == {p.id};
    } else {
      assert Stays(w, p, t) == [p] && Newcomers(w, p, t) == [];
    }
  }

  // ----- Forests in the engine -----

  ghost function Finished(s: State): set<Id> {
    set id | id in s.cbs && s.cbs[id].completed
  }

  /** Every callback of the forest is in the book under its id. */
  ghost predicate Shelved(book: map<Id, Plan>, ps: seq<Plan>)
    decreases ps
  {
    ps == [] ||
    (ps[0].id in book && book[ps[0].id] == ps[0] && Shelved(book, ps[0].kids) && Shelved(book, ps[1..]))
  }

  ghost predicate HeadsIn(ps: seq<Plan>, ids: set<Id>) {
    forall i :: 0 <= i < |ps| ==> ps[i].id in ids
  }

  /** The book has the callback as it is, or it is what is left of the one in the
      book. */
  ghost predicate OnShelf(book: map<Id, Plan>, p: Plan, ids: set<Id>) {
    && p.id in book
    && ((book[p.id] == p && Shelved(book, p.kids)) || (p == Opened(book[p.id]) && HeadsIn(book[p.id].kids, ids)))
  }

  /** The callback is pending, and none of those below it has been constructed. */
  ghost predicate Live(book: map<Id, Plan>, s: State, p: Plan) {
    && p.id in s.cbs && s.cbs[p.id] == Flags(false, true, p.waits)
    && IdsAll(p.kids) !! s.cbs.Keys
    && OnShelf(book, p, s.cbs.Keys)
  }

  ghost predicate LiveAll(book: map<Id, Plan>, s: State, ps: seq<Plan>) {
    forall i :: 0 <= i < |ps| ==> Live(book, s, ps[i])
  }

  /** From s to s' callbacks stayed as they were or completed, and new ones are as
      the book has them, pending or completed. */
  ghost predicate Evolves(book: map<Id, Plan>, s: State, s': State) {
    && s'.paused == s.paused && s'.loaded == s.loaded && s.cbs.Keys <= s'.cbs.Keys
    && (forall x :: x in s.cbs ==>
          s'.cbs[x] == s.cbs[x] || (!s.cbs[x].completed && s'.cbs[x] == Flags(true, false, false)))
    && (forall x :: x in s'.cbs && x !in s.cbs ==>
          x in book && (s'.cbs[x] == Flags(false, true, book[x].waits) || s'.cbs[x] == Flags(true, false, false)))
  }

  lemma EvolvesTwice(book: map<Id, Plan>, a: State, b: State, c: State)
    requires Evolves(book, a, b) && Evolves(book, b, c)
    ensures Evolves(book, a, c)
  {
  }

  /** Where it leads is settled by who was constructed and who completed. */
  lemma SameFlags(book: map<Id, Plan>, s: State, a: State, b: State)
    requires Evolves(book, s, a) && Evolves(book, s, b)
    requires a.cbs.Keys == b.cbs.Keys && Finished(a) == Finished(b)
    ensures a.cbs == b.cbs
  {
    forall x | x in a.cbs ensures a.cbs[x] == b.cbs[x] {
      assert x in Finished(a) <==> x in Finished(b);
    }
  }

  /** s' is s with the callbacks in `known` added and otherwise the same flags. */
  ghost predicate Adds(s: State, s': State, known: set<Id>) {
    && s'.cbs.Keys == s.cbs.Keys + known
    && (forall x :: x in s.cbs ==> s'.cbs[x] == s.cbs[x])
  }

  lemma {:induction false} PartOf(ps: seq<Plan>, i: nat)
    requires i < |ps|
    ensures Ids(ps[i]) <= IdsAll(ps)
    decreases i
  {
    if i > 0 {
      PartOf(ps[1..], i - 1);
    }
  }

  /** Callbacks stay live as long as nothing happens to them and none of those
      below them is constructed. */
  lemma LiveStays(book: map<Id, Plan>, s: State, s': State, ps: seq<Plan>)
    requires LiveAll(book, s, ps) && s.cbs.Keys <= s'.cbs.Keys
    requires forall i :: 0 <= i < |ps| ==> ps[i].id in s'.cbs && s'.cbs[ps[i].id] == s.cbs[ps[i].id]
    requires IdsAll(ps) !! s'.cbs.Keys - s.cbs.Keys
    ensures LiveAll(book, s', ps)
  {
    forall i | 0 <= i < |ps| ensures Live(book, s', ps[i]) {
      assert Live(book, s, ps[i]);
      PartOf(ps, i);
    }
  }

  lemma LiveConcat(book: map<Id, Plan>, s: State, ps: seq<Plan>, qs: seq<Plan>)
    requires LiveAll(book, s, ps) && LiveAll(book, s, qs)
    ensures LiveAll(book, s, ps + qs) && IdSeq(ps + qs) == IdSeq(ps) + IdSeq(qs)
  {
  }

  /** From s to s' the callbacks in `known` were added, and those in `done`
      completed. */
  ghost predicate Grows(book: map<Id, Plan>, s: State, s': State, known: set<Id>, done: set<Id>) {
    Adds(s, s', known) && Evolves(book, s, s') && Finished(s') == Finished(s) + done
  }

  lemma GrowsTwice(book: map<Id, Plan>, a: State, b: State, c: State,
                   known1: set<Id>, done1: set<Id>, known2: set<Id>, done2: set<Id>)
    requires Grows(book, a, b, known1, done1) && Grows(book, b, c, known2, done2)
    ensures Grows(book, a, c, known1 + known2, done1 + done2)
  {
    EvolvesTwice(book, a, b, c);
  }

  /** From s to s' a forest was registered: its closure completed and its front
      is pending, in order, at the end of the list. */
  ghost predicate Planted(book: map<Id, Plan>, s: State, s': State, known: set<Id>, done: set<Id>, front: seq<Plan>) {
    Grows(book, s, s', known, done) && Queued(book, s, s', front)
  }

  ghost predicate Queued(book: map<Id, Plan>, s: State, s': State, front: seq<Plan>) {
    s'.pending == s.pending + IdSeq(front) && LiveAll(book, s', front)
  }

  lemma QueuedTwice(book: map<Id, Plan>, s: State, s1: State, s2: State,
                    front1: seq<Plan>, known2: set<Id>, front2: seq<Plan>)
    requires Queued(book, s, s1, front1) && Queued(book, s1, s2, front2)
    requires Adds(s1, s2, known2) && IdsAll(front1) !! known2
    ensures Queued(book, s, s2, front1 + front2)
  {
    AddsLive(book, s1, s2, front1, known2);
    LiveConcat(book, s2, front1, front2);
  }

  lemma AddsLive(book: map<Id, Plan>, s: State, s': State, ps: seq<Plan>, known: set<Id>)
    requires LiveAll(book, s, ps) && Adds(s, s', known) && IdsAll(ps) !! known
    ensures LiveAll(book, s', ps)
  {
    forall i | 0 <= i < |ps| ensures ps[i].id in s'.cbs && s'.cbs[ps[i].id] == s.cbs[ps[i].id] {
      assert Live(book, s, ps[i]);
    }
    LiveStays(book, s, s', ps);
  }

  lemma {:induction false} RegisterForest(w: World, book: map<Id, Plan>, s: State, ps: seq<Plan>, t: nat)
    requires s.loaded && Separate(ps) && IdsAll(ps) !! s.cbs.Keys && Shelved(book, ps)
    ensures Planted(book, s, RegisterAll(s, Registrations(w, ps, t)),
                    Known(w, ps, t), Closure(w, ps, t), Front(w, ps, t))
    decreases ps, 1
  {
    if ps == [] {
      assert s.pending == s.pending + IdSeq([]);
    } else {
      var p, rs := ps[0], Registrations(w, ps, t);
      assert rs[1..] == Registrations(w, ps[1..], t);
      RegisterPlan(w, book, s, p, t);
      var s1 := Register(s, rs[0]);
      Single(w, p, t);
      KnownIds(w, [p], t);
      KnownIds(w, ps[1..], t);
      FrontOfSeparate(w, p, t);
      RegisterForest(w, book, s1, ps[1..], t);
      var s2 := RegisterAll(s1, rs[1..]);
      GrowsTwice(book, s, s1, s2, KnownOf(w, p, t), ClosureOf(w, p, t), Known(w, ps[1..], t), Closure(w, ps[1..], t));
      QueuedTwice(book, s, s1, s2, Newcomers(w, p, t) + Stays(w, p, t), Known(w, ps[1..], t), Front(w, ps[1..], t));
    }
  }

  /** The book knows the callback, and neither it nor any below it is constructed. */
  ghost predicate Unknown(book: map<Id, Plan>, s: State, p: Plan) {
    && Ids(p) !! s.cbs.Keys && p.id !in IdsAll(p.kids) && Separate(p.kids)
    && p.id in book && book[p.id] == p && Shelved(book, p.kids)
  }

  /** The state in which the callback's own code runs. */
  function Inside(s: State, p: Plan): State {
    Note(Construct(s, p.id, p.waits), Invoked(p.id))
  }

  lemma {:induction false} RegisterPlan(w: World, book: map<Id, Plan>, s: State, p: Plan, t: nat)
    requires s.loaded && Unknown(book, s, p)
    ensures Planted(book, s, Register(s, Registration(p.id, p.waits, ReplyOf(w, p, t))),
                    KnownOf(w, p, t), ClosureOf(w, p, t), Newcomers(w, p, t) + Stays(w, p, t))
    decreases p, 0
  {
    if Runs(w, p, t) {
      var s1 := Inside(s, p);
      RegisterForest(w, book, s1, p.kids, t);
      RegisterRunning(w, book, s, RegisterAll(s1, Registrations(w, p.kids, t)), p, t);
    } else {
      RegisterIdle(w, book, s, p, t);
    }
  }

  /** Connecting a new callback whose code does not run only makes it pending. */
  lemma ConnectIdle(w: World, s: State, p: Plan, t: nat)
    requires s.loaded && p.id !in s.cbs && !Runs(w, p, t)
    ensures var s' := Register(s, Registration(p.id, p.waits, ReplyOf(w, p, t)));
            && s'.cbs == s.cbs[p.id := Flags(false, true, p.waits)]
            && s'.pending == s.pending + [p.id] && s'.paused == s.paused && s'.loaded == s.loaded
  {
    var s0 := Construct(s, p.id, p.waits);
    var s1 := if p.waits then s0.(waitlist := s0.waitlist + [p.id]) else Evaluate(s0, p.id, ReplyOf(w, p, t), true);
    assert s1.cbs == s0.cbs && s1.pending == s0.pending && s1.paused == s.paused && s1.loaded == s.loaded;
    assert Connect(s0, p.id, ReplyOf(w, p, t)) == Enlist(s1, p.id);
  }

  /** The flags of a callback whose code has run. */
  function FlagsAfter(w: World, p: Plan, t: nat): Flags {
    if Fires(w, p, t) then Flags(true, false, false) else Flags(false, true, false)
  }

  /** Connecting one whose code runs: afterwards it has completed or is pending. */
  lemma ConnectRunning(w: World, s: State, s2: State, p: Plan, t: nat)
    requires s.loaded && p.id !in s.cbs && Runs(w, p, t)
    requires s2 == RegisterAll(Inside(s, p), Registrations(w, p.kids, t))
    requires p.id in s2.cbs && s2.cbs[p.id] == Flags(false, false, false)
    ensures var s' := Register(s, Registration(p.id, p.waits, ReplyOf(w, p, t)));
            && s' == (if Fires(w, p, t) then Complete(s2, p.id, true) else Enlist(s2, p.id))
            && Sets(s2, s', p.id, FlagsAfter(w, p, t))
            && s'.pending == (if Fires(w, p, t) then s2.pending else s2.pending + [p.id])
  {
    var s0 := Construct(s, p.id, p.waits);
    var r := ReplyOf(w, p, t);
    assert Evaluate(s0, p.id, r, true) == if Fires(w, p, t) then Complete(s2, p.id, true) else s2;
    assert Connect(s0, p.id, r) == if Fires(w, p, t) then Complete(s2, p.id, true) else Enlist(s2, p.id);
  }

  lemma RegisterIdle(w: World, book: map<Id, Plan>, s: State, p: Plan, t: nat)
    requires s.loaded && Unknown(book, s, p) && !Runs(w, p, t)
    ensures Planted(book, s, Register(s, Registration(p.id, p.waits, ReplyOf(w, p, t))),
                    KnownOf(w, p, t), ClosureOf(w, p, t), Newcomers(w, p, t) + Stays(w, p, t))
  {
    var s' := Register(s, Registration(p.id, p.waits, ReplyOf(w, p, t)));
    assert p.id in Ids(p);
    ConnectIdle(w, s, p, t);
    assert Finished(s') == Finished(s);
    assert Newcomers(w, p, t) + Stays(w, p, t) == [p] && IdSeq([p]) == [p.id];
    assert Live(book, s', p);
  }

  /** Only the callback's own flags change. */
  ghost predicate Sets(s2: State, s': State, id: Id, f: Flags) {
    && id in s2.cbs && s'.cbs == s2.cbs[id := f]
    && s'.paused == s2.paused && s'.loaded == s2.loaded
  }

  /** Construction of a callback, what it registers, and then its own flags. */
  lemma OwnGrows(book: map<Id, Plan>, s: State, s2: State, s': State, p: Plan, f: Flags,
                 known: set<Id>, done: set<Id>)
    requires p.id !in s.cbs && p.id in book && book[p.id].waits == p.waits
    requires Grows(book, Inside(s, p), s2, known, done) && Sets(s2, s', p.id, f)
    requires f == Flags(true, false, false) || f == Flags(false, true, p.waits)
    ensures Grows(book, s, s', {p.id} + known, (if f.completed then {p.id} else {}) + done)
  {
    assert Evolves(book, s, s') by {
      OwnEvolves(book, s, s2, s', p, f);
    }
    assert Adds(s, s', {p.id} + known) && !s2.cbs[p.id].completed by {
      OwnAdds(s, s2, s', p, f, known);
    }
    OwnDone(s, s2, s', p, f, done);
  }

  lemma OwnDone(s: State, s2: State, s': State, p: Plan, f: Flags, done: set<Id>)
    requires p.id !in s.cbs && Finished(s2) == Finished(Inside(s, p)) + done
    requires Sets(s2, s', p.id, f) && !s2.cbs[p.id].completed
    ensures Finished(s') == Finished(s) + ((if f.completed then {p.id} else {}) + done)
  {
    assert Finished(Inside(s, p)) == Finished(s);
    OwnFinished(s2, s', p.id, f);
  }

  lemma OwnAdds(s: State, s2: State, s': State, p: Plan, f: Flags, known: set<Id>)
    requires p.id !in s.cbs && Adds(Inside(s, p), s2, known) && Sets(s2, s', p.id, f)
    ensures Adds(s, s', {p.id} + known) && !s2.cbs[p.id].completed
  {
    assert s2.cbs[p.id] == Inside(s, p).cbs[p.id];
  }

  lemma OwnFinished(s2: State, s': State, id: Id, f: Flags)
    requires Sets(s2, s', id, f) && !s2.cbs[id].completed
    ensures Finished(s') == Finished(s2) + if f.completed then {id} else {}
  {
  }

  lemma OwnEvolves(book: map<Id, Plan>, s: State, s2: State, s': State, p: Plan, f: Flags)
    requires p.id !in s.cbs && p.id in book && book[p.id].waits == p.waits
    requires Evolves(book, Inside(s, p), s2) && Sets(s2, s', p.id, f)
    requires f == Flags(true, false, false) || f == Flags(false, true, p.waits)
    ensures Evolves(book, s, s')
  {
  }

  /** Setting the callback's own flags leaves those it registered live. */
  lemma FrontStaysLive(w: World, book: map<Id, Plan>, s2: State, s': State, p: Plan, t: nat)
    requires p.id !in IdsAll(p.kids) && Separate(p.kids)
    requires LiveAll(book, s2, Front(w, p.kids, t))
    requires exists f :: Sets(s2, s', p.id, f)
    ensures LiveAll(book, s', Front(w, p.kids, t))
  {
    FrontSeparate(w, p.kids, t);
    var front := Front(w, p.kids, t);
    forall i | 0 <= i < |front|
      ensures front[i].id in s'.cbs && s'.cbs[front[i].id] == s2.cbs[front[i].id]
    {
      assert Live(book, s2, front[i]);
      PartOf(front, i);
      assert front[i].id in Ids(front[i]);
    }
    LiveStays(book, s2, s', front);
  }

  lemma RegisterRunning(w: World, book: map<Id, Plan>, s: State, s2: State, p: Plan, t: nat)
    requires s.loaded && Unknown(book, s, p) && Runs(w, p, t)
    requires s2 == RegisterAll(Inside(s, p), Registrations(w, p.kids, t))
    requires Planted(book, Inside(s, p), s2, Known(w, p.kids, t), Closure(w, p.kids, t), Front(w, p.kids, t))
    ensures Planted(book, s, Register(s, Registration(p.id, p.waits, ReplyOf(w, p, t))),
                    KnownOf(w, p, t), ClosureOf(w, p, t), Newcomers(w, p, t) + Stays(w, p, t))
  {
    var s' := Register(s, Registration(p.id, p.waits, ReplyOf(w, p, t)));
    assert p.id in Ids(p);
    assert s2.cbs[p.id] == Inside(s, p).cbs[p.id] == Flags(false, false, false);
    ConnectRunning(w, s, s2, p, t);
    OwnGrows(book, s, s2, s', p, FlagsAfter(w, p, t), Known(w, p.kids, t), Closure(w, p.kids, t));
    KnownIds(w, p.kids, t);
    QueuedRunning(w, book, s, s2, s', p, t);
  }

  lemma QueuedRunning(w: World, book: map<Id, Plan>, s: State, s2: State, s': State, p: Plan, t: nat)
    requires p.id in book && book[p.id] == p && p.id !in IdsAll(p.kids) && Separate(p.kids) && Runs(w, p, t)
    requires HeadsIn(p.kids, s2.cbs.Keys) && Queued(book, Inside(s, p), s2, Front(w, p.kids, t))
    requires Sets(s2, s', p.id, FlagsAfter(w, p, t))
    requires s'.pending == if Fires(w, p, t) then s2.pending else s2.pending + [p.id]
    ensures Queued(book, s, s', Newcomers(w, p, t) + Stays(w, p, t))
  {
    FrontStaysLive(w, book, s2, s', p, t);
    if Fires(w, p, t) {
      assert Front(w, p.kids, t) + [] == Front(w, p.kids, t);
    } else {
      OpenedLive(book, s', p);
      LiveConcat(book, s', Front(w, p.kids, t), [Opened(p)]);
    }
  }

  lemma OpenedLive(book: map<Id, Plan>, s: State, p: Plan)
    requires p.id in s.cbs && s.cbs[p.id] == Flags(false, true, p.waits)
    requires p.id in book && Opened(book[p.id]) == Opened(p) && HeadsIn(book[p.id].kids, s.cbs.Keys)
    ensures LiveAll(book, s, [Opened(p)]) && IdSeq([Opened(p)]) == [p.id]
  {
  }

  // ----- One pass -----

  /** The answers all callbacks in the book give at time t. */
  function Answers(w: World, book: map<Id, Plan>, t: nat): Replies {
    map id | id in book :: ReplyOf(w, book[id], t)
  }

  /** The engine's pending list from index i on is this forest. */
  ghost predicate Tracks(book: map<Id, Plan>, s: State, i: nat, ps: seq<Plan>) {
    && s.loaded && i <= |s.pending| && s.pending[i..] == IdSeq(ps)
    && LiveAll(book, s, ps) && Separate(ps)
  }

  ghost predicate Answered(w: World, book: map<Id, Plan>, ps: seq<Plan>, t: nat, replies: Replies) {
    && (forall x :: x in replies ==> x in book && replies[x] == ReplyOf(w, book[x], t))
    && (forall i :: 0 <= i < |ps| ==> ps[i].id in replies || Still(w, ps[i], t))
  }

  /** Nothing happened outside the callbacks in `inside`. */
  ghost predicate Within(s: State, s': State, inside: set<Id>) {
    forall x :: x in s.cbs && x !in inside ==> x in s'.cbs && s'.cbs[x] == s.cbs[x]
  }

  /** From s to s' the pass visited the callback: what it registers is pending at
      the end of the list, and it is itself still pending unless it accepted. */
  ghost predicate Acted(w: World, book: map<Id, Plan>, s: State, s': State, p: Plan, t: nat) {
    && Within(s, s', {p.id})
    && Advanced(book, s, s', KnownOf(w, p, t), ClosureOf(w, p, t))
    && Queued(book, s, s', Newcomers(w, p, t))
    && LiveAll(book, s', Stays(w, p, t))
    && (Fires(w, p, t) ==> p.id in s'.cbs && !s'.cbs[p.id].connected)
  }

  ghost predicate Advanced(book: map<Id, Plan>, s: State, s': State, known: set<Id>, done: set<Id>) {
    && s'.cbs.Keys == s.cbs.Keys + known
    && Evolves(book, s, s')
    && Finished(s') == Finished(s) + done
  }

  lemma AdvancedTwice(book: map<Id, Plan>, a: State, b: State, c: State,
                      known1: set<Id>, done1: set<Id>, known2: set<Id>, done2: set<Id>)
    requires Advanced(book, a, b, known1, done1) && Advanced(book, b, c, known2, done2)
    ensures Advanced(book, a, c, known1 + known2, done1 + done2)
  {
    EvolvesTwice(book, a, b, c);
  }

  /** Callbacks that are all registered already are ignored. */
  lemma {:induction false} RegisterKnown(w: World, s: State, ps: seq<Plan>, t: nat)
    requires HeadsIn(ps, s.cbs.Keys)
    ensures RegisterAll(s, Registrations(w, ps, t)) == s
    decreases |ps|
  {
    if ps != [] {
      assert ps[0].id in s.cbs;
      assert forall i :: 0 <= i < |ps| - 1 ==> ps[1..][i] == ps[i + 1];
      assert Registrations(w, ps, t)[1..] == Registrations(w, ps[1..], t);
      RegisterKnown(w, s, ps[1..], t);
    }
  }

  /** What the callback's own code does when the pass comes to it. */
  lemma VisitInside(w: World, book: map<Id, Plan>, s: State, p: Plan, t: nat)
    requires s.loaded && Live(book, s, p) && p.id !in IdsAll(p.kids) && Separate(p.kids)
    ensures var s0 := Note(s, Invoked(p.id));
            var s2 := RegisterAll(s0, Registrations(w, book[p.id].kids, t));
            && Planted(book, s0, s2, Known(w, p.kids, t), Closure(w, p.kids, t), Front(w, p.kids, t))
            && HeadsIn(book[p.id].kids, s2.cbs.Keys)
  {
    var s0 := Note(s, Invoked(p.id));
    if book[p.id] == p && Shelved(book, p.kids) {
      RegisterForest(w, book, s0, p.kids, t);
      KnownIds(w, p.kids, t);
    } else {
      RegisterKnown(w, s0, book[p.id].kids, t);
      assert s0.pending == s0.pending + IdSeq([]);
    }
  }

  lemma VisitOne(w: World, book: map<Id, Plan>, s: State, p: Plan, t: nat)
    requires s.loaded && Live(book, s, p) && p.id !in IdsAll(p.kids) && Separate(p.kids)
    ensures Acted(w, book, s, Evaluate(s, p.id, ReplyOf(w, book[p.id], t), false), p, t)
  {
    var s' := Evaluate(s, p.id, ReplyOf(w, book[p.id], t), false);
    if Runs(w, p, t) {
      var s0 := Note(s, Invoked(p.id));
      var s2 := RegisterAll(s0, Registrations(w, book[p.id].kids, t));
      VisitInside(w, book, s, p, t);
      assert s' == if Fires(w, p, t) then Complete(s2, p.id, false) else s2;
      VisitRunning(w, book, s, s2, s', p, t);
    } else {
      assert s' == s;
      VisitStill(w, book, s, p, t);
    }
  }

  lemma VisitStill(w: World, book: map<Id, Plan>, s: State, p: Plan, t: nat)
    requires Live(book, s, p) && Still(w, p, t)
    ensures Acted(w, book, s, s, p, t)
  {
    assert s.pending == s.pending + IdSeq([]);
    if Runs(w, p, t) {
      assert Opened(p) == p;
    }
  }

  lemma VisitRunning(w: World, book: map<Id, Plan>, s: State, s2: State, s': State, p: Plan, t: nat)
    requires Live(book, s, p) && p.id !in IdsAll(p.kids) && Separate(p.kids) && Runs(w, p, t)
    requires Planted(book, Note(s, Invoked(p.id)), s2, Known(w, p.kids, t), Closure(w, p.kids, t), Front(w, p.kids, t))
    requires HeadsIn(book[p.id].kids, s2.cbs.Keys)
    requires s' == if Fires(w, p, t) then Complete(s2, p.id, false) else s2
    ensures Acted(w, book, s, s', p, t)
  {
    assert s2.cbs[p.id] == s.cbs[p.id] == Flags(false, true, false);
    assert Sets(s2, s', p.id, FlagsAfter(w, p, t)) && s'.pending == s2.pending;
    assert Advanced(book, s, s', KnownOf(w, p, t), ClosureOf(w, p, t)) by {
      RunningAdvances(w, book, s, s2, s', p, t);
    }
    FrontStaysLive(w, book, s2, s', p, t);
    if !Fires(w, p, t) {
      OpenedLive(book, s', p);
    }
  }

  lemma RunningAdvances(w: World, book: map<Id, Plan>, s: State, s2: State, s': State, p: Plan, t: nat)
    requires p.id in s.cbs && s.cbs[p.id] == Flags(false, true, false) && Runs(w, p, t)
    requires Grows(book, Note(s, Invoked(p.id)), s2, Known(w, p.kids, t), Closure(w, p.kids, t))
    requires Sets(s2, s', p.id, FlagsAfter(w, p, t))
    ensures Advanced(book, s, s', KnownOf(w, p, t), ClosureOf(w, p, t))
  {
    assert Finished(Note(s, Invoked(p.id))) == Finished(s);
    OwnFinished(s2, s', p.id, FlagsAfter(w, p, t));
  }

  /** The pending list up to i is as it was; connected after it are those left. */
  ghost predicate Leaves(book: map<Id, Plan>, s: State, s': State, i: nat, left: seq<Plan>) {
    && i <= |s.pending| <= |s'.pending| && s'.pending[..i] == s.pending[..i]
    && Connected(s', s'.pending[i..]) == IdSeq(left)
    && LiveAll(book, s', left)
  }

  /** Evaluating those left later on is as good as evaluating all then. */
  ghost predicate Residue(w: World, ps: seq<Plan>, left: seq<Plan>, t: nat) {
    && Separate(left) && IdsAll(left) <= IdsAll(ps)
    && forall t' :: t <= t' ==> Splits(w, ps, left, t, t')
  }

  ghost predicate Splits(w: World, ps: seq<Plan>, left: seq<Plan>, t: nat, t': nat) {
    && Closure(w, ps, t') == Closure(w, ps, t) + Closure(w, left, t')
    && Known(w, ps, t') == Known(w, ps, t) + Known(w, left, t')
  }

  /** What a pass from index i on does to the forest it finds there. */
  ghost predicate Visited(w: World, book: map<Id, Plan>, s: State, s': State, i: nat,
                          ps: seq<Plan>, left: seq<Plan>, t: nat)
  {
    && Within(s, s', IdsAll(ps))
    && Advanced(book, s, s', Known(w, ps, t), Closure(w, ps, t))
    && Leaves(book, s, s', i, left)
    && Residue(w, ps, left, t)
  }

  /** After a visit, the forest ahead is the rest and the newcomers. */
  ghost function Ahead(w: World, ps: seq<Plan>, t: nat): seq<Plan>
    requires ps != []
  {
    ps[1..] + Newcomers(w, ps[0], t)
  }

  lemma AheadSeparate(w: World, ps: seq<Plan>, t: nat)
    requires ps != [] && Separate(ps)
    ensures Separate(Ahead(w, ps, t)) && IdsAll(Ahead(w, ps, t)) <= IdsAll(ps)
    ensures ps[0].id !in IdsAll(Ahead(w, ps, t))
    ensures IdsAll(Stays(w, ps[0], t)) !! IdsAll(Ahead(w, ps, t))
    ensures Separate(Stays(w, ps[0], t)) && IdsAll(Stays(w, ps[0], t)) <= Ids(ps[0])
  {
    FrontOfSeparate(w, ps[0], t);
    StaysSeparate(w, ps[0], t);
    SeparateConcat(ps[1..], Newcomers(w, ps[0], t));
    IdsConcat(ps[1..], Newcomers(w, ps[0], t));
  }

  lemma VisitTracks(w: World, book: map<Id, Plan>, s: State, s1: State, i: nat, ps: seq<Plan>, t: nat)
    requires Tracks(book, s, i, ps) && ps != [] && Acted(w, book, s, s1, ps[0], t)
    ensures Tracks(book, s1, i + 1, Ahead(w, ps, t))
  {
    AheadSeparate(w, ps, t);
    RestStaysLive(w, book, s, s1, ps, t);
    LiveConcat(book, s1, ps[1..], Newcomers(w, ps[0], t));
    PendingAhead(s, s1, i, ps, Newcomers(w, ps[0], t));
  }

  lemma PendingAhead(s: State, s1: State, i: nat, ps: seq<Plan>, newcomers: seq<Plan>)
    requires i <= |s.pending| && s.pending[i..] == IdSeq(ps) && ps != []
    requires s1.pending == s.pending + IdSeq(newcomers)
    ensures i + 1 <= |s1.pending| && s1.pending[i + 1..] == IdSeq(ps[1..] + newcomers)
  {
    assert s1.pending[i + 1..] == s.pending[i..][1..] + IdSeq(newcomers);
    assert s.pending[i..][1..] == IdSeq(ps[1..]);
  }

  lemma RestStaysLive(w: World, book: map<Id, Plan>, s: State, s1: State, ps: seq<Plan>, t: nat)
    requires ps != [] && Separate(ps) && LiveAll(book, s, ps) && Acted(w, book, s, s1, ps[0], t)
    ensures LiveAll(book, s1, ps[1..])
  {
    var p, rest := ps[0], ps[1..];
    Single(w, p, t);
    KnownIds(w, [p], t);
    forall j | 0 <= j < |rest| ensures rest[j].id in s1.cbs && s1.cbs[rest[j].id] == s.cbs[rest[j].id] {
      assert Live(book, s, ps[j + 1]);
      PartOf(rest, j);
      assert rest[j].id in Ids(rest[j]);
    }
    assert LiveAll(book, s, rest);
    LiveStays(book, s, s1, rest);
  }

  /** The answers that are left are enough for the forest ahead. */
  lemma VisitAnswered(w: World, book: map<Id, Plan>, ps: seq<Plan>, t: nat, replies: Replies)
    requires ps != [] && Separate(ps) && Answered(w, book, ps, t, replies)
    ensures Answered(w, book, Ahead(w, ps, t), t, replies - {ps[0].id})
    ensures ps[0].id !in replies ==> Answered(w, book, Ahead(w, ps, t), t, replies)
  {
    var qs := Ahead(w, ps, t);
    FrontStill(w, ps[0].kids, t);
    forall j | 0 <= j < |qs| ensures (qs[j].id in replies && qs[j].id != ps[0].id) || Still(w, qs[j], t) {
      if j < |ps| - 1 {
        assert qs[j] == ps[j + 1];
        PartOf(ps[1..], j);
        assert qs[j].id in Ids(qs[j]) && ps[0].id in Ids(ps[0]);
      } else {
        assert qs[j] == Newcomers(w, ps[0], t)[j - (|ps| - 1)];
      }
    }
  }

  lemma VisitResidue(w: World, ps: seq<Plan>, left: seq<Plan>, t: nat)
    requires Monotone(w) && ps != [] && Separate(ps) && Residue(w, Ahead(w, ps, t), left, t)
    ensures Residue(w, ps, Stays(w, ps[0], t) + left, t)
  {
    var p, stays := ps[0], Stays(w, ps[0], t);
    AheadSeparate(w, ps, t);
    SeparateConcat(stays, left);
    IdsConcat(stays, left);
    forall t' | t <= t' ensures Splits(w, ps, stays + left, t, t') {
      VisitSplits(w, ps, left, t, t');
    }
  }

  lemma VisitSplits(w: World, ps: seq<Plan>, left: seq<Plan>, t: nat, t': nat)
    requires Monotone(w) && t <= t' && ps != [] && Splits(w, Ahead(w, ps, t), left, t, t')
    ensures Splits(w, ps, Stays(w, ps[0], t) + left, t, t')
  {
    VisitSets(w, ps, t);
    SetsConcat(w, ps[1..], Newcomers(w, ps[0], t), t');
    SetsConcat(w, Stays(w, ps[0], t), left, t');
    OneInStages(w, ps[0], t, t');
  }

  /** Visiting the newcomers in the same pass adds nothing. */
  lemma VisitSets(w: World, ps: seq<Plan>, t: nat)
    requires Monotone(w) && ps != []
    ensures ClosureOf(w, ps[0], t) + Closure(w, Ahead(w, ps, t), t) == Closure(w, ps, t)
    ensures KnownOf(w, ps[0], t) + Known(w, Ahead(w, ps, t), t) == Known(w, ps, t)
  {
    SetsConcat(w, ps[1..], Newcomers(w, ps[0], t), t);
    OneInStages(w, ps[0], t, t);
  }

  lemma NextIndex(s: State, s': State, i: nat)
    requires i < |s.pending| <= |s'.pending| && s'.pending[..i + 1] == s.pending[..i + 1]
    ensures s'.pending[i] == s.pending[i] && s'.pending[..i] == s.pending[..i]
    ensures s'.pending[i..] == [s.pending[i]] + s'.pending[i + 1..]
  {
    assert s'.pending[i] == s'.pending[..i + 1][i];
    assert s'.pending[..i] == s'.pending[..i + 1][..i];
    assert s.pending[..i] == s.pending[..i + 1][..i];
  }

  /** The callback just visited, at index i, is still connected or not. */
  lemma VisitLeaves(book: map<Id, Plan>, s: State, s1: State, s': State, i: nat, id: Id,
                    newcomers: seq<Plan>, stays: seq<Plan>, left: seq<Plan>)
    requires i < |s.pending| && s.pending[i] == id && s1.pending == s.pending + IdSeq(newcomers)
    requires id in s'.cbs && (stays == [] || (|stays| == 1 && stays[0].id == id))
    requires s'.cbs[id].connected <==> stays != []
    requires LiveAll(book, s', stays) && Leaves(book, s1, s', i + 1, left)
    ensures Leaves(book, s, s', i, stays + left)
  {
    NextIndex(s1, s', i);
    assert s.pending[..i] == s1.pending[..i];
    LiveConcat(book, s', stays, left);
    ConnectedAhead(s', id, s'.pending[i + 1..]);
    assert IdSeq(stays) == if stays == [] then [] else [id];
  }

  lemma ConnectedAhead(s: State, id: Id, xs: seq<Id>)
    requires id in s.cbs
    ensures Connected(s, [id] + xs) == (if s.cbs[id].connected then [id] else []) + Connected(s, xs)
  {
    assert ([id] + xs)[1..] == xs;
  }

  /** What stays of the callback is left alone by the rest of the pass. */
  lemma StaysLive(w: World, book: map<Id, Plan>, s: State, s1: State, s': State, ps: seq<Plan>, t: nat)
    requires ps != [] && Separate(ps) && LiveAll(book, s, ps) && Acted(w, book, s, s1, ps[0], t)
    requires Within(s1, s', IdsAll(Ahead(w, ps, t))) && s'.cbs.Keys == s1.cbs.Keys + Known(w, Ahead(w, ps, t), t)
    ensures LiveAll(book, s', Stays(w, ps[0], t))
    ensures ps[0].id in s'.cbs && (s'.cbs[ps[0].id].connected <==> Stays(w, ps[0], t) != [])
  {
    var p, stays := ps[0], Stays(w, ps[0], t);
    AheadSeparate(w, ps, t);
    KnownIds(w, Ahead(w, ps, t), t);
    assert p.id in KnownOf(w, p, t);
    assert stays != [] ==> Live(book, s1, stays[0]);
    LiveStays(book, s1, s', stays);
  }

  lemma VisitVisited(w: World, book: map<Id, Plan>, s: State, s1: State, s': State, i: nat,
                     ps: seq<Plan>, left: seq<Plan>, t: nat)
    requires Monotone(w) && Tracks(book, s, i, ps) && ps != [] && Acted(w, book, s, s1, ps[0], t)
    requires Visited(w, book, s1, s', i + 1, Ahead(w, ps, t), left, t)
    ensures Visited(w, book, s, s', i, ps, Stays(w, ps[0], t) + left, t)
  {
    var p, ahead := ps[0], Ahead(w, ps, t);
    assert s.pending[i] == s.pending[i..][0] == p.id;
    AheadSeparate(w, ps, t);
    assert Within(s, s', IdsAll(ps)) by {
      assert p.id in Ids(p);
    }
    assert Advanced(book, s, s', Known(w, ps, t), Closure(w, ps, t)) by {
      AdvancedTwice(book, s, s1, s', KnownOf(w, p, t), ClosureOf(w, p, t), Known(w, ahead, t), Closure(w, ahead, t));
      VisitSets(w, ps, t);
    }
    StaysLive(w, book, s, s1, s', ps, t);
    VisitLeaves(book, s, s1, s', i, p.id, Newcomers(w, p, t), Stays(w, p, t), left);
    VisitResidue(w, ps, left, t);
  }

  /** The first visit of a pass, and what is then ahead. */
  lemma VisitNext(w: World, book: map<Id, Plan>, s: State, i: nat, ps: seq<Plan>, t: nat, replies: Replies)
    returns (s1: State, rest: Replies)
    requires Tracks(book, s, i, ps) && ps != [] && Answered(w, book, ps, t, replies)
    ensures i < |s.pending| && EvaluatePending(s, i, replies) == EvaluatePending(s1, i + 1, rest)
    ensures Acted(w, book, s, s1, ps[0], t)
    ensures (rest == replies && s1 == s) || |rest| < |replies|
    ensures Answered(w, book, Ahead(w, ps, t), t, rest)
  {
    var p := ps[0];
    assert |IdSeq(ps)| == |s.pending| - i;
    assert s.pending[i] == s.pending[i..][0] == p.id && Live(book, s, p);
    VisitAnswered(w, book, ps, t, replies);
    if p.id in replies {
      s1, rest := Evaluate(s, p.id, replies[p.id], false), replies - {p.id};
      VisitOne(w, book, s, p, t);
    } else {
      s1, rest := s, replies;
      VisitStill(w, book, s, p, t);
    }
  }

  /** A whole pass over a forest. */
  lemma {:induction false} VisitAll(w: World, book: map<Id, Plan>, s: State, i: nat, ps: seq<Plan>, t: nat,
                                    replies: Replies)
    returns (left: seq<Plan>)
    requires Monotone(w) && Tracks(book, s, i, ps) && Answered(w, book, ps, t, replies)
    ensures Visited(w, book, s, EvaluatePending(s, i, replies), i, ps, left, t)
    decreases |replies|, |s.pending| - i
  {
    if ps == [] {
      left := [];
      NothingVisited(w, book, s, i, t, replies);
    } else {
      var s1, rest := VisitNext(w, book, s, i, ps, t, replies);
      VisitTracks(w, book, s, s1, i, ps, t);
      left := VisitAll(w, book, s1, i + 1, Ahead(w, ps, t), t, rest);
      VisitVisited(w, book, s, s1, EvaluatePending(s1, i + 1, rest), i, ps, left, t);
      left := Stays(w, ps[0], t) + left;
    }
  }

  lemma NothingVisited(w: World, book: map<Id, Plan>, s: State, i: nat, t: nat, replies: Replies)
    requires Tracks(book, s, i, [])
    ensures Visited(w, book, s, EvaluatePending(s, i, replies), i, [], [], t)
  {
    assert |IdSeq([])| == |s.pending| - i;
  }

  // ----- Loads, with and without a pause -----

  /** From s to s' the forest was evaluated, at time t at last; `left` is pending. */
  ghost predicate Reached(w: World, book: map<Id, Plan>, s: State, s': State, ps: seq<Plan>, left: seq<Plan>, t: nat)
  {
    && Advanced(book, s, s', Known(w, ps, t), Closure(w, ps, t))
    && Residue(w, ps, left, t) && Tracks(book, s', 0, left) && !s'.paused
  }

  lemma ResidueTwice(w: World, ps: seq<Plan>, left1: seq<Plan>, left2: seq<Plan>, t1: nat, t2: nat)
    requires t1 <= t2 && Residue(w, ps, left1, t1) && Residue(w, left1, left2, t2)
    ensures Residue(w, ps, left2, t2) && Splits(w, ps, left1, t1, t2)
  {
    assert Splits(w, ps, left1, t1, t2);
    forall t' | t2 <= t' ensures Splits(w, ps, left2, t2, t') {
      assert Splits(w, ps, left1, t1, t') && Splits(w, left1, left2, t2, t');
    }
  }

  lemma ReachedTwice(w: World, book: map<Id, Plan>, s: State, s1: State, s2: State,
                     ps: seq<Plan>, left1: seq<Plan>, left2: seq<Plan>, t1: nat, t2: nat)
    requires t1 <= t2 && Reached(w, book, s, s1, ps, left1, t1) && Reached(w, book, s1, s2, left1, left2, t2)
    ensures Reached(w, book, s, s2, ps, left2, t2)
  {
    ResidueTwice(w, ps, left1, left2, t1, t2);
    AdvancedTwice(book, s, s1, s2, Known(w, ps, t1), Closure(w, ps, t1), Known(w, left1, t2), Closure(w, left1, t2));
  }

  /** One pass of `evaluate_all` at time t. */
  lemma PassOnce(w: World, book: map<Id, Plan>, s: State, ps: seq<Plan>, t: nat) returns (left: seq<Plan>)
    requires Monotone(w) && !s.paused && Tracks(book, s, 0, ps)
    ensures Reached(w, book, s, EvaluateAll(s, Answers(w, book, t)), ps, left, t)
  {
    forall i | 0 <= i < |ps| ensures ps[i].id in book {
      assert Live(book, s, ps[i]);
    }
    left := VisitAll(w, book, s, 0, ps, t, Answers(w, book, t));
    var s1 := EvaluatePending(s, 0, Answers(w, book, t));
    var s' := UpdatePending(s1);
    assert s1.pending[0..] == s1.pending && s'.pending[0..] == s'.pending;
    assert Finished(s') == Finished(s1);
    forall i | 0 <= i < |left| ensures Live(book, s', left[i]) {
      assert Live(book, s1, left[i]);
    }
  }

  function Repeat(r: Replies, n: nat): (rs: seq<Replies>)
    ensures |rs| == n
  {
    if n == 0 then [] else [r] + Repeat(r, n - 1)
  }

  /** One objfile event: any number of passes is as good as one. */
  lemma {:induction false} PassTimes(w: World, book: map<Id, Plan>, s: State, n: nat, ps: seq<Plan>, t: nat)
    returns (left: seq<Plan>)
    requires Monotone(w) && !s.paused && Tracks(book, s, 0, ps)
    requires n == 0 ==> ps == []
    ensures Reached(w, book, s, EvaluateTimes(s, n, Repeat(Answers(w, book, t), n)), ps, left, t)
    decreases n
  {
    if n == 0 {
      left := [];
    } else {
      var replies := Answers(w, book, t);
      left := PassOnce(w, book, s, ps, t);
      assert Repeat(replies, n)[1..] == Repeat(replies, n - 1);
      if n > 1 {
        var s1, left1 := EvaluateAll(s, replies), left;
        left := PassTimes(w, book, s1, n - 1, left1, t);
        ReachedTwice(w, book, s, s1, EvaluateTimes(s1, n - 1, Repeat(replies, n - 1)), ps, left1, left, t, t);
      }
    }
  }

  /** A series of objfile loads; the event runs one pass per constructed object. */
  function Loads(w: World, book: map<Id, Plan>, s: State, times: seq<nat>): State
    decreases |times|
  {
    if times == [] then s else Loads(w, book, Load(w, book, s, times[0]), times[1..])
  }

  function Load(w: World, book: map<Id, Plan>, s: State, t: nat): State {
    Step(s, Objfile(Repeat(Answers(w, book, t), |s.cbs|)))
  }

  ghost predicate InOrder(times: seq<nat>) {
    forall i, j :: 0 <= i < j < |times| ==> times[i] <= times[j]
  }

  function Last(times: seq<nat>): nat
    requires times != []
  {
    times[|times| - 1]
  }

  lemma LoadPasses(w: World, book: map<Id, Plan>, s: State, t: nat)
    requires s.loaded
    ensures Load(w, book, s, t) == EvaluateTimes(s, |s.cbs|, Repeat(Answers(w, book, t), |s.cbs|))
  {
    assert s.(loaded := true) == s;
  }

  lemma LoadOnce(w: World, book: map<Id, Plan>, s: State, ps: seq<Plan>, t: nat) returns (left: seq<Plan>)
    requires Monotone(w) && !s.paused && Tracks(book, s, 0, ps)
    ensures Reached(w, book, s, Load(w, book, s, t), ps, left, t)
  {
    LoadPasses(w, book, s, t);
    if ps != [] {
      assert Live(book, s, ps[0]);
      assert ps[0].id in s.cbs;
    }
    left := PassTimes(w, book, s, |s.cbs|, ps, t);
  }

  lemma OrderTail(times: seq<nat>)
    requires |times| > 1 && InOrder(times)
    ensures InOrder(times[1..]) && Last(times[1..]) == Last(times) && times[0] <= Last(times)
  {
  }

  lemma {:induction false} LoadsReach(w: World, book: map<Id, Plan>, s: State, ps: seq<Plan>, times: seq<nat>)
    returns (left: seq<Plan>)
    requires Monotone(w) && !s.paused && Tracks(book, s, 0, ps)
    requires times != [] && InOrder(times)
    ensures Reached(w, book, s, Loads(w, book, s, times), ps, left, Last(times))
    decreases |times|
  {
    left := LoadOnce(w, book, s, ps, times[0]);
    if |times| > 1 {
      OrderTail(times);
      var left1 := left;
      left := LoadsReach(w, book, Load(w, book, s, times[0]), left1, times[1..]);
      ReachedTwice(w, book, s, Load(w, book, s, times[0]), Loads(w, book, s, times),
                   ps, left1, left, times[0], Last(times));
    }
  }

  lemma {:induction false} PausedLoads(w: World, book: map<Id, Plan>, s: State, times: seq<nat>)
    requires s.paused
    ensures Loads(w, book, s, times) == if times == [] then s else s.(loaded := true)
    decreases |times|
  {
    if times != [] {
      var passes := Repeat(Answers(w, book, times[0]), |s.cbs|);
      CallbackSafety.PausedPasses(s.(loaded := true), |s.cbs|, passes);
      PausedLoads(w, book, s.(loaded := true), times[1..]);
    }
  }

  /** A pause, a series of loads, and the unpause. */
  function Held(w: World, book: map<Id, Plan>, s: State, times: seq<nat>): State
    requires times != []
  {
    Step(Loads(w, book, Step(s, Pause), times), Unpause(Answers(w, book, Last(times))))
  }

  lemma HeldIs(w: World, book: map<Id, Plan>, s: State, times: seq<nat>)
    requires !s.paused && s.loaded && times != []
    ensures Held(w, book, s, times) == EvaluateAll(s, Answers(w, book, Last(times)))
    ensures Finished(Loads(w, book, Step(s, Pause), times)) == Finished(s)
  {
    PausedLoads(w, book, Step(s, Pause), times);
    assert Loads(w, book, Step(s, Pause), times).(paused := false) == s;
  }

  lemma HeldReach(w: World, book: map<Id, Plan>, s: State, ps: seq<Plan>, times: seq<nat>) returns (left: seq<Plan>)
    requires Monotone(w) && !s.paused && Tracks(book, s, 0, ps) && times != []
    ensures Reached(w, book, s, Held(w, book, s, times), ps, left, Last(times))
  {
    HeldIs(w, book, s, times);
    left := PassOnce(w, book, s, ps, Last(times));
  }

  lemma PausedSame(w: World, book: map<Id, Plan>, s: State, ps: seq<Plan>, times: seq<nat>)
    returns (left1: seq<Plan>, left2: seq<Plan>)
    requires Monotone(w) && !s.paused && Tracks(book, s, 0, ps) && times != [] && InOrder(times)
    ensures Reached(w, book, s, Loads(w, book, s, times), ps, left1, Last(times))
    ensures Reached(w, book, s, Held(w, book, s, times), ps, left2, Last(times))
    ensures Loads(w, book, s, times).cbs == Held(w, book, s, times).cbs
  {
    left1 := LoadsReach(w, book, s, ps, times);
    left2 := HeldReach(w, book, s, ps, times);
    SameFlags(book, s, Loads(w, book, s, times), Held(w, book, s, times));
  }

  /** From two states with the same outcome, further loads have the same outcome. */
  lemma LoadsSame(w: World, book: map<Id, Plan>, s: State, a: State, b: State,
                  ps: seq<Plan>, left1: seq<Plan>, left2: seq<Plan>, t: nat, more: seq<nat>)
    requires Monotone(w) && Reached(w, book, s, a, ps, left1, t) && Reached(w, book, s, b, ps, left2, t)
    requires more != [] && InOrder(more) && t <= Last(more)
    ensures Loads(w, book, a, more).cbs == Loads(w, book, b, more).cbs
  {
    var left3 := LoadsReach(w, book, a, left1, more);
    var left4 := LoadsReach(w, book, b, left2, more);
    var a', b' := Loads(w, book, a, more), Loads(w, book, b, more);
    ReachedTwice(w, book, s, a, a', ps, left1, left3, t, Last(more));
    ReachedTwice(w, book, s, b, b', ps, left2, left4, t, Last(more));
    SameFlags(book, s, a', b');
  }

  lemma OrderParts(times: seq<nat>, more: seq<nat>)
    requires times != [] && InOrder(times + more)
    ensures InOrder(times) && InOrder(more)
    ensures more != [] ==> Last(times) <= Last(more)
  {
    var all := times + more;
    assert forall i :: 0 <= i < |times| ==> times[i] == all[i];
    assert forall i :: 0 <= i < |more| ==> more[i] == all[|times| + i];
  }

  /** If readiness and acceptance only ever grow with what is loaded, a pause
      around any series of loads changes nothing.  At the unpause exactly those
      callbacks have completed that complete without the pause, including the
      ones registered, directly or not, by callbacks whose code has run; all flags
      are the same; and they stay the same after any further loads. */
  lemma PauseIsInvisible(w: World, book: map<Id, Plan>, s: State, ps: seq<Plan>, times: seq<nat>, more: seq<nat>)
    requires Monotone(w) && !s.paused && Tracks(book, s.(loaded := true), 0, ps)
    requires times != [] && InOrder(times + more)
    ensures var plain, held := Loads(w, book, s, times), Held(w, book, s, times);
            && Finished(Loads(w, book, Step(s, Pause), times)) == Finished(s)
            && Finished(plain) == Finished(held) == Finished(s) + Closure(w, ps, Last(times))
            && held.cbs == plain.cbs && held.paused == plain.paused && held.loaded == plain.loaded
            && Loads(w, book, held, more).cbs == Loads(w, book, plain, more).cbs
  {
    var s0 := s.(loaded := true);
    LoadedFirst(w, book, s, times);
    OrderParts(times, more);
    var left1, left2 := PausedSame(w, book, s0, ps, times);
    HeldIs(w, book, s0, times);
    if more != [] {
      LoadsSame(w, book, s0, Loads(w, book, s0, times), Held(w, book, s0, times), ps, left1, left2, Last(times), more);
    }
  }

  /** The event itself says that something is loaded. */
  lemma LoadedFirst(w: World, book: map<Id, Plan>, s: State, times: seq<nat>)
    requires times != []
    ensures var s0 := s.(loaded := true);
            && Loads(w, book, s, times) == Loads(w, book, s0, times)
            && Loads(w, book, Step(s, Pause), times) == Loads(w, book, Step(s0, Pause), times)
            && Held(w, book, s, times) == Held(w, book, s0, times)
            && Finished(s0) == Finished(s)
  {
  }

  lemma {:induction false} LoadsQuiet(w: World, book: map<Id, Plan>, s: State, times: seq<nat>)
    requires CallbackSafety.Quiet(s)
    ensures CallbackSafety.Quiet(Loads(w, book, s, times))
    decreases |times|
  {
    if times != [] {
      CallbackSafety.StepOk(s, Objfile(Repeat(Answers(w, book, times[0]), |s.cbs|)));
      LoadsQuiet(w, book, Load(w, book, s, times[0]), times[1..]);
    }
  }

  /** From a state between events of any run, the pending list and the wait list
      hold the same callbacks with the pause as without, each once. */
  lemma PauseKeepsLists(w: World, book: map<Id, Plan>, s: State, ps: seq<Plan>, times: seq<nat>)
    requires Monotone(w) && !s.paused && Tracks(book, s.(loaded := true), 0, ps)
    requires times != [] && InOrder(times) && CallbackSafety.Quiet(s)
    ensures var plain, held := Loads(w, book, s, times), Held(w, book, s, times);
            && Elements(held.pending) == Elements(plain.pending) && |held.pending| == |plain.pending|
            && Elements(held.waitlist) == Elements(plain.waitlist) && |held.waitlist| == |plain.waitlist|
  {
    var plain, held := Loads(w, book, s, times), Held(w, book, s, times);
    assert times + [] == times;
    PauseIsInvisible(w, book, s, ps, times, []);
    LoadsQuiet(w, book, s, times);
    CallbackSafety.StepOk(s, Pause);
    LoadsQuiet(w, book, Step(s, Pause), times);
    CallbackSafety.StepOk(Loads(w, book, Step(s, Pause), times), Unpause(Answers(w, book, Last(times))));
    SameLists(plain, held);
  }

  lemma SameLists(a: State, b: State)
    requires CallbackSafety.Quiet(a) && CallbackSafety.Quiet(b) && a.cbs == b.cbs
    ensures Elements(a.pending) == Elements(b.pending) && |a.pending| == |b.pending|
    ensures Elements(a.waitlist) == Elements(b.waitlist) && |a.waitlist| == |b.waitlist|
  {
    ElementCount(a.pending);
    ElementCount(b.pending);
    ElementCount(a.waitlist);
    ElementCount(b.waitlist);
    assert forall x :: x in a.waitlist <==> x in b.waitlist;
  }

  // ----- A callback that registers anew each time -----

  /** A callback that is ready, never accepts, and registers a new callback, which
      accepts at once, each time its code runs. */
  function Restless(k: Id): Replies {
    map[0 := Declined([Registration(k, false, Accepted([]))])]
  }

  const RESTLESS := State(map[0 := Flags(false, true, false)], [0], [], false, true, [])

  /** The callback is pending, and nothing else is. */
  ghost predicate OnlyRestless(s: State) {
    && s.loaded && s.pending == [0] && 0 in s.cbs && s.cbs[0] == Flags(false, true, false)
  }

  lemma RestlessRegisters(s: State, k: Id)
    requires OnlyRestless(s) && k !in s.cbs
    ensures var s' := Register(s, Registration(k, false, Accepted([])));
            && s'.cbs == s.cbs[k := Flags(true, false, false)] && s'.pending == [0]
            && s'.paused == s.paused && s'.loaded == s.loaded
  {
    var s1 := Note(Construct(s, k, false), Invoked(k));
    assert RegisterAll(s1, []) == s1;
    assert Evaluate(Construct(s, k, false), k, Accepted([]), true) == Complete(s1, k, true);
  }

  lemma RestlessPass(s: State, k: Id)
    requires OnlyRestless(s) && !s.paused && k !in s.cbs
    ensures var s' := EvaluateAll(s, Restless(k));
            && OnlyRestless(s') && !s'.paused && s'.cbs == s.cbs[k := Flags(true, false, false)]
  {
    var r := Restless(k)[0];
    var s1 := Note(s, Invoked(0));
    RestlessRegisters(s1, k);
    var s2 := Register(s1, r.regs[0]);
    assert r.regs[1..] == [];
    assert RegisterAll(s1, r.regs) == RegisterAll(s2, []) == s2;
    assert Evaluate(s, 0, r, false) == s2;
    assert EvaluatePending(s, 0, Restless(k)) == EvaluatePending(s2, 1, Restless(k) - {0}) == s2;
    assert [0][1..] == [];
    assert Connected(s2, [0]) == [0];
  }

  lemma PassesOneByOne(s: State, a: Replies, b: Replies)
    ensures EvaluateTimes(s, 1, [a]) == EvaluateAll(s, a)
    ensures EvaluateTimes(s, 2, [a, b]) == EvaluateAll(EvaluateAll(s, a), b)
  {
    assert [a][1..] == [] && [a, b][1..] == [b] && [b][1..] == [];
    assert EvaluateTimes(EvaluateAll(s, a), 1, [b]) == EvaluateAll(EvaluateAll(s, a), b);
  }

  const LOAD1 := Objfile([Restless(1)])
  const LOAD2 := Objfile([Restless(2), Restless(3)])

  lemma RestlessLoad1(s: State)
    requires OnlyRestless(s) && !s.paused && s.cbs.Keys == {0}
    ensures var s' := Step(s, LOAD1);
            OnlyRestless(s') && !s'.paused && s'.cbs == s.cbs[1 := Flags(true, false, false)]
  {
    RestlessPass(s, 1);
    PassesOneByOne(s, Restless(1), Restless(1));
    assert |s.cbs| == |s.cbs.Keys| == 1 && s.(loaded := true) == s;
  }

  lemma RestlessLoad2(s: State)
    requires OnlyRestless(s) && !s.paused && s.cbs.Keys == {0, 1}
    ensures Step(s, LOAD2).cbs == s.cbs[2 := Flags(true, false, false)][3 := Flags(true, false, false)]
  {
    RestlessPass(s, 2);
    RestlessPass(EvaluateAll(s, Restless(2)), 3);
    PassesOneByOne(s, Restless(2), Restless(3));
    assert |s.cbs| == |s.cbs.Keys| == 2 && s.(loaded := true) == s;
  }

  lemma RestlessPlain()
    ensures Finished(Run(RESTLESS, [LOAD1, LOAD2])) == {1, 2, 3}
  {
    RestlessLoad1(RESTLESS);
    RestlessLoad2(Step(RESTLESS, LOAD1));
    RunTwo(RESTLESS, LOAD1, LOAD2);
  }

  lemma RestlessHeld()
    ensures Finished(Run(RESTLESS, [Pause, LOAD1, LOAD2, Unpause(Restless(3))])) == {3}
  {
    var p := Step(RESTLESS, Pause);
    CallbackSafety.PausedPasses(p, 1, [Restless(1)]);
    CallbackSafety.PausedPasses(p, 1, [Restless(2), Restless(3)]);
    assert p.(loaded := true) == p && |p.cbs| == 1;
    assert Step(p, LOAD1) == p && Step(p, LOAD2) == p;
    RestlessPass(RESTLESS, 3);
    assert p.(paused := false) == RESTLESS;
    RunHeld(RESTLESS, LOAD1, LOAD2, Unpause(Restless(3)));
  }

  /** Such a callback is not covered by the theorem, though it never changes its
      mind: in two loads its code runs three times, with a pause around them once. */
  lemma PauseIsVisible()
    ensures Finished(Run(RESTLESS, [LOAD1, LOAD2])) == {1, 2, 3}
    ensures Finished(Run(RESTLESS, [Pause, LOAD1, LOAD2, Unpause(Restless(3))])) == {3}
  {
    RestlessPlain();
    RestlessHeld();
  }

  lemma RunTwo(s: State, a: Event, b: Event)
    ensures Run(s, [a, b]) == Step(Step(s, a), b)
  {
    assert [a, b][1..] == [b] && [b][1..] == [];
    assert Run(Step(s, a), [b]) == Run(Step(Step(s, a), b), []);
  }

  lemma RunHeld(s: State, a: Event, b: Event, c: Event)
    ensures Run(s, [Pause, a, b, c]) == Step(Step(Step(Step(s, Pause), a), b), c)
  {
    assert [Pause, a, b, c][1..] == [a, b, c] && [a, b, c][1..] == [b, c];
    assert Run(s, [Pause, a, b, c]) == Run(Step(s, Pause), [a, b, c]) == Run(Step(Step(s, Pause), a), [b, c]);
    RunTwo(Step(Step(s, Pause), a), b, c);
  }
}
