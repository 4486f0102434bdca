/** What each event does to each callback: when its code runs, when it completes,
    and what becomes of its place on the lists. */
module CallbackOutcome {
  import opened Callback
  import opened CallbackSafety
  import opened Collections

  // ----- What is in the history about one callback -----

  ghost function About(log: seq<Entry>, id: Id): seq<Entry> {
    if log == [] then []
    else (if log[0].id == id then [log[0]] else []) + About(log[1..], id)
  }

  lemma {:induction false} AboutConcat(a: seq<Entry>, b: seq<Entry>, id: Id)
    ensures About(a + b, id) == About(a, id) + About(b, id)
    decreases |a|
  {
    if a == [] {
      assert a + b == b;
    } else {
      AboutConcat(a[1..], b, id);
      assert (a + b)[0] == a[0] && (a + b)[1..] == a[1..] + b;
      Regroup(if a[0].id == id then [a[0]] else [], About(a[1..], id), About(b, id));
    }
  }

  lemma AboutOne(e: Entry, id: Id)
    ensures About([e], id) == if e.id == id then [e] else []
  {
    assert [e][1..] == [];
  }

  /** The entries added from s to s'. */
  ghost function New(s: State, s': State): seq<Entry>
    requires s.log <= s'.log
  {
    s'.log[|s.log|..]
  }

  lemma NewTwice(a: State, b: State, c: State, id: Id)
    requires a.log <= b.log <= c.log
    ensures a.log <= c.log && About(New(a, c), id) == About(New(a, b), id) + About(New(b, c), id)
  {
    assert New(a, c) == New(a, b) + New(b, c);
    AboutConcat(New(a, b), New(b, c), id);
  }

  /** What an evaluation with this reply leaves in the history about the callback. */
  ghost function Entries(id: Id, r: Reply): seq<Entry> {
    match r
    case NotReady => []
    case Declined(_) => [Invoked(id)]
    case Accepted(_) => [Invoked(id), Completed(id)]
  }

  /** From s to s' the callback was evaluated once, with this reply. */
  ghost predicate Outcome(s: State, s': State, id: Id, r: Reply) {
    && s.log <= s'.log && id in s.cbs && id in s'.cbs
    && About(New(s, s'), id) == Entries(id, r)
    && s'.cbs[id] == if r.Accepted? then Flags(true, false, s.cbs[id].waiting) else s.cbs[id]
  }

  /** From s to s' nothing happened to known callbacks other than those in `ex`. */
  ghost predicate Apart(s: State, s': State, ex: set<Id>) {
    s.log <= s'.log && forall x :: x in s.cbs && x !in ex ==> Outcome(s, s', x, NotReady)
  }

  lemma FirstThenNothing(a: State, b: State, c: State, id: Id, r: Reply)
    requires Outcome(a, b, id, r) && Outcome(b, c, id, NotReady)
    ensures Outcome(a, c, id, r)
  {
    NewTwice(a, b, c, id);
    assert Entries(id, r) + [] == Entries(id, r);
  }

  lemma NothingThen(a: State, b: State, c: State, id: Id, r: Reply)
    requires Outcome(a, b, id, NotReady) && Outcome(b, c, id, r)
    ensures Outcome(a, c, id, r)
  {
    NewTwice(a, b, c, id);
    assert [] + Entries(id, r) == Entries(id, r);
  }

  lemma ApartTwice(a: State, b: State, c: State, ex: set<Id>)
    requires Apart(a, b, ex) && Apart(b, c, ex)
    ensures Apart(a, c, ex)
  {
    forall x | x in a.cbs && x !in ex ensures Outcome(a, c, x, NotReady) {
      FirstThenNothing(a, b, c, x, NotReady);
    }
  }

  /** Nothing is added to the history, and no flags change but those of `id`. */
  lemma ApartSilently(s: State, s': State, ex: set<Id>)
    requires s'.log == s.log
    requires forall x :: x in s.cbs && x !in ex ==> x in s'.cbs && s'.cbs[x] == s.cbs[x]
    ensures Apart(s, s', ex)
  {
    assert New(s, s') == [];
  }

  lemma ApartNoting(s: State, s': State, e: Entry)
    requires s'.log == s.log + [e]
    requires forall x :: x in s.cbs && x != e.id ==> x in s'.cbs && s'.cbs[x] == s.cbs[x]
    ensures Apart(s, s', {e.id})
  {
    assert New(s, s') == [e];
    forall x | x in s.cbs && x != e.id ensures Outcome(s, s', x, NotReady) {
      AboutOne(e, x);
    }
  }

  // ----- One evaluation, and all it registers -----

  lemma {:induction false} RegisterAllApart(s: State, regs: seq<Registration>)
    ensures Apart(s, RegisterAll(s, regs), {})
    decreases regs, 2
  {
    if regs == [] {
      ApartSilently(s, s, {});
    } else {
      RegisterApart(s, regs[0]);
      RegisterAllApart(Register(s, regs[0]), regs[1..]);
      ApartTwice(s, Register(s, regs[0]), RegisterAll(s, regs), {});
    }
  }

  lemma {:induction false} RegisterApart(s: State, reg: Registration)
    ensures Apart(s, Register(s, reg), {})
    decreases reg, 1
  {
    if reg.id in s.cbs {
      ApartSilently(s, s, {});
    } else {
      var s0 := Construct(s, reg.id, reg.waits);
      ApartSilently(s, s0, {reg.id});
      ConnectApart(s0, reg.id, reg.reply);
      ApartTwice(s, s0, Register(s, reg), {reg.id});
    }
  }

  lemma {:induction false} ConnectApart(s: State, id: Id, r: Reply)
    requires id in s.cbs
    ensures Apart(s, Connect(s, id, r), {id})
    decreases r, 4
  {
    var s' := Connect(s, id, r);
    if s.cbs[id].completed || s.cbs[id].connected || s.cbs[id].waiting || !s.loaded {
      ApartSilently(s, s', {id});
    } else {
      var s1 := Evaluate(s, id, r, true);
      EvaluateApart(s, id, r, true);
      ApartSilently(s1, s', {id});
      ApartTwice(s, s1, s', {id});
    }
  }

  lemma {:induction false} EvaluateApart(s: State, id: Id, r: Reply, updateNow: bool)
    ensures Apart(s, Evaluate(s, id, r, updateNow), {id})
    decreases r, 3
  {
    if id !in s.cbs || s.cbs[id].waiting || r.NotReady? {
      ApartSilently(s, s, {id});
    } else {
      var s0 := Note(s, Invoked(id));
      var s1 := RegisterAll(s0, r.regs);
      ApartNoting(s, s0, Invoked(id));
      RegisterAllApart(s0, r.regs);
      ApartTwice(s, s0, s1, {id});
      if r.Accepted? {
        ApartNoting(s1, Complete(s1, id, updateNow), if s1.cbs[id].completed then Raised(id) else Completed(id));
        ApartTwice(s, s1, Complete(s1, id, updateNow), {id});
      }
    }
  }

  /** The callback's own code runs, and registers others. */
  lemma CodeRuns(s: State, id: Id, regs: seq<Registration>)
    requires id in s.cbs
    ensures var s1 := RegisterAll(Note(s, Invoked(id)), regs);
            && s.log <= s1.log && id in s1.cbs && s1.cbs[id] == s.cbs[id]
            && About(New(s, s1), id) == [Invoked(id)]
  {
    var s0 := Note(s, Invoked(id));
    RegisterAllApart(s0, regs);
    assert Outcome(s0, RegisterAll(s0, regs), id, NotReady);
    assert New(s, s0) == [Invoked(id)];
    AboutOne(Invoked(id), id);
    NewTwice(s, s0, RegisterAll(s0, regs), id);
    assert [Invoked(id)] + [] == [Invoked(id)];
  }

  /** It accepted. */
  lemma ThenCompletes(s: State, s1: State, id: Id, updateNow: bool)
    requires s.log <= s1.log && id in s1.cbs && !s1.cbs[id].completed && About(New(s, s1), id) == [Invoked(id)]
    ensures var s2 := Complete(s1, id, updateNow);
            s.log <= s2.log && About(New(s, s2), id) == [Invoked(id), Completed(id)]
  {
    var s2 := Complete(s1, id, updateNow);
    assert New(s1, s2) == [Completed(id)];
    AboutOne(Completed(id), id);
    NewTwice(s, s1, s2, id);
    assert [Invoked(id)] + [Completed(id)] == [Invoked(id), Completed(id)];
  }

  lemma EvaluateOutcome(s: State, id: Id, r: Reply, updateNow: bool)
    requires id in s.cbs && !s.cbs[id].completed && !s.cbs[id].waiting
    ensures Outcome(s, Evaluate(s, id, r, updateNow), id, r)
  {
    if r.NotReady? {
      ApartSilently(s, s, {});
    } else {
      CodeRuns(s, id, r.regs);
      if r.Accepted? {
        ThenCompletes(s, RegisterAll(Note(s, Invoked(id)), r.regs), id, updateNow);
      }
    }
  }

  // ----- Connecting -----

  /** Connecting a callback evaluates it on the spot if something is loaded and it
      need not wait for the target; unless it then completes, it joins the pending
      list, and the wait list if it waits.  A callback that is connected or has
      completed is left alone. */
  lemma ConnectOutcome(s: State, id: Id, r: Reply)
    requires Quiet(s) && id in s.cbs
    ensures var s' := Step(s, ConnectCallback(id, r));
            var f := s.cbs[id];
            var now := if f.waiting || !s.loaded then NotReady else r;
            && (f.completed || f.connected ==> s' == s)
            && (!f.completed && !f.connected ==>
                  && s.log <= s'.log && id in s'.cbs && About(New(s, s'), id) == Entries(id, now)
                  && s'.cbs[id] == (if now.Accepted? then Flags(true, false, false) else Flags(false, true, f.waiting))
                  && (id in s'.pending <==> !now.Accepted?)
                  && (id in s'.waitlist <==> f.waiting)
                  && Apart(s, s', {id}))
  {
    StepOk(s, ConnectCallback(id, r));
    var f := s.cbs[id];
    if !f.completed && !f.connected {
      ConnectApart(s, id, r);
      ConnectOk(s, id, r);
      if !f.waiting && s.loaded {
        EvaluateOutcome(s, id, r, true);
        var s1 := Evaluate(s, id, r, true);
        assert Connect(s, id, r).log == s1.log;
      } else {
        assert New(s, Connect(s, id, r)) == [];
      }
    }
  }

  /** A callback constructed and connected by another one's code fares likewise. */
  lemma RegisterOutcome(s: State, reg: Registration)
    requires Inv(s) && reg.id !in s.cbs
    ensures var s' := Register(s, reg);
            var now := if reg.waits || !s.loaded then NotReady else reg.reply;
            && s.log <= s'.log && reg.id in s'.cbs && About(New(s, s'), reg.id) == Entries(reg.id, now)
            && s'.cbs[reg.id] == (if now.Accepted? then Flags(true, false, false) else Flags(false, true, reg.waits))
  {
    var s0 := Construct(s, reg.id, reg.waits);
    if !reg.waits && s.loaded {
      EvaluateOutcome(s0, reg.id, reg.reply, true);
      assert Register(s, reg).log == Evaluate(s0, reg.id, reg.reply, true).log;
    } else {
      assert Register(s, reg).log == s.log;
      assert New(s, Register(s, reg)) == [];
    }
  }

  // ----- Passes -----

  ghost function ReplyTo(replies: Replies, id: Id): Reply {
    if id in replies then replies[id] else NotReady
  }

  /** Who is evaluated by a pass that visits the callbacks in `visited`. */
  ghost predicate PassEffect(s: State, s': State, visited: seq<Id>, replies: Replies) {
    && s.log <= s'.log
    && forall x :: x in s.cbs ==>
         Outcome(s, s', x, if x in visited && !s.cbs[x].waiting then ReplyTo(replies, x) else NotReady)
  }

  lemma {:induction false} EvaluatePendingEffect(s: State, i: nat, replies: Replies)
    requires Passing(s, i) && i <= |s.pending|
    ensures PassEffect(s, EvaluatePending(s, i, replies), s.pending[i..], replies)
    decreases |replies|, |s.pending| - i
  {
    hide Passing, Advances, Apart, Outcome;
    if i == |s.pending| {
      ApartSilently(s, s, {});
    } else {
      var s1, rest := FirstVisit(s, i, replies);
      EvaluatePendingEffect(s1, i + 1, rest);
      EffectOfVisit(s, s1, EvaluatePending(s1, i + 1, rest), i, replies, rest);
    }
  }

  /** From s to s1 the pass visited index i, which used up its answer. */
  ghost predicate Visit(s: State, i: nat, replies: Replies, s1: State, rest: Replies) {
    && i < |s.pending| && s.pending[i] in s.cbs
    && Passing(s1, i + 1) && i + 1 <= |s1.pending| && Distinct(s1.pending)
    && Advances(s, s1, {s.pending[i]}) && Apart(s, s1, {s.pending[i]})
    && Outcome(s, s1, s.pending[i], if s.cbs[s.pending[i]].waiting then NotReady else ReplyTo(replies, s.pending[i]))
    && rest == (if s.pending[i] in replies then replies - {s.pending[i]} else replies)
  }

  lemma FirstVisit(s: State, i: nat, replies: Replies) returns (s1: State, rest: Replies)
    requires Passing(s, i) && i < |s.pending|
    ensures Visit(s, i, replies, s1, rest)
    ensures EvaluatePending(s, i, replies) == EvaluatePending(s1, i + 1, rest)
    ensures |rest| < |replies| || (rest == replies && |s1.pending| == |s.pending|)
  {
    var id := s.pending[i];
    var r := ReplyTo(replies, id);
    s1, rest := Evaluate(s, id, r, false), if id in replies then replies - {id} else replies;
    VisitEffect(s, i, r);
  }

  lemma VisitEffect(s: State, i: nat, r: Reply)
    requires Passing(s, i) && i < |s.pending|
    ensures var id := s.pending[i];
            var s1 := Evaluate(s, id, r, false);
            && Passing(s1, i + 1) && i + 1 <= |s1.pending| && Advances(s, s1, {id}) && Distinct(s1.pending)
            && Apart(s, s1, {id}) && id in s.cbs
            && Outcome(s, s1, id, if s.cbs[id].waiting then NotReady else r)
  {
    var id := s.pending[i];
    assert id in s.pending;
    PassOne(s, i, r);
    EvaluateOk(s, id, r, false);
    EvaluateApart(s, id, r, false);
    if s.cbs[id].waiting {
      ApartSilently(s, s, {});
    } else {
      EvaluateOutcome(s, id, r, false);
    }
  }

  /** A visit, and then the pass over the rest. */
  lemma EffectOfVisit(s: State, s1: State, s': State, i: nat, replies: Replies, rest: Replies)
    requires Visit(s, i, replies, s1, rest) && PassEffect(s1, s', s1.pending[i + 1..], rest)
    ensures PassEffect(s, s', s.pending[i..], replies)
  {
    var id := s.pending[i];
    forall x | x in s.cbs
      ensures Outcome(s, s', x, if x in s.pending[i..] && !s.cbs[x].waiting then ReplyTo(replies, x) else NotReady)
    {
      AheadSame(s, s1, i, x);
      if x == id {
        assert s.pending[i..][0] == id;
        assert Outcome(s1, s', id, NotReady);
        FirstThenNothing(s, s1, s', id, if s.cbs[id].waiting then NotReady else ReplyTo(replies, id));
      } else {
        assert Outcome(s, s1, x, NotReady);
        NothingThen(s, s1, s', x, if x in s.pending[i..] && !s.cbs[x].waiting then ReplyTo(replies, x) else NotReady);
      }
    }
  }

  /** Known callbacks are ahead after a visit if they were before. */
  lemma AheadSame(s: State, s1: State, i: nat, x: Id)
    requires i < |s.pending| && Advances(s, s1, {s.pending[i]}) && Distinct(s1.pending) && x in s.cbs
    ensures i + 1 <= |s1.pending|
    ensures x in s1.pending[i + 1..] <==> x != s.pending[i] && x in s.pending[i..]
  {
    GrownAhead(s.pending, s1.pending, i, x, x == s.pending[i]);
  }

  lemma GrownAhead(xs: seq<Id>, ys: seq<Id>, i: nat, x: Id, first: bool)
    requires i < |xs| && xs <= ys && Distinct(ys) && (first <==> x == xs[i])
    requires !first ==> forall k :: |xs| <= k < |ys| ==> ys[k] != x
    ensures x in ys[i + 1..] <==> !first && x in xs[i..]
  {
    if first {
      forall k | i + 1 <= k < |ys| ensures ys[k] != x {
        assert ys[i] == x;
      }
    } else {
      if x in xs[i..] {
        var k :| 0 <= k < |xs[i..]| && xs[i..][k] == x;
        assert k > 0 && ys[i + 1..][k - 1] == x;
      }
      if x in ys[i + 1..] {
        var k :| 0 <= k < |ys[i + 1..]| && ys[i + 1..][k] == x;
        assert ys[i + 1 + k] == x && xs[i..][k + 1] == x;
      }
    }
  }

  /** One pass, as at the unpause: every pending callback that does not wait is
      evaluated once, and nothing happens to any other known one. */
  lemma PassOutcome(s: State, replies: Replies)
    requires Quiet(s) && !s.paused
    ensures var s' := EvaluateAll(s, replies);
            && s.log <= s'.log
            && forall x :: x in s.cbs ==>
                 && Outcome(s, s', x, if s.cbs[x].connected && !s.cbs[x].waiting then ReplyTo(replies, x) else NotReady)
                 && (x in s'.pending <==> s'.cbs[x].connected)
  {
    forall j | 0 <= j < |s.pending| ensures s.pending[j] in s.pending { }
    forall j | 0 <= j < |s.waitlist| ensures s.waitlist[j] in s.waitlist { }
    EvaluatePendingEffect(s, 0, replies);
    EvaluateAllOk(s, replies);
    var s1 := EvaluatePending(s, 0, replies);
    assert s.pending[0..] == s.pending && s1.log == EvaluateAll(s, replies).log;
    forall x | x in s.cbs ensures Outcome(s, EvaluateAll(s, replies), x,
        if s.cbs[x].connected && !s.cbs[x].waiting then ReplyTo(replies, x) else NotReady)
    {
      assert Outcome(s, s1, x, if x in s.pending && !s.cbs[x].waiting then ReplyTo(replies, x) else NotReady);
    }
  }

  lemma {:induction false} PendingOnlyGrows(s: State, i: nat, replies: Replies)
    requires Passing(s, i) && i <= |s.pending|
    ensures s.pending <= EvaluatePending(s, i, replies).pending
    decreases |replies|, |s.pending| - i
  {
    hide Passing, Apart, Outcome;
    if i < |s.pending| {
      var s1, rest := FirstVisit(s, i, replies);
      PendingOnlyGrows(s1, i + 1, rest);
    }
  }

  /** The callback is still to be completed and is not held back by the target. */
  ghost predicate Free(s: State, id: Id) {
    id in s.cbs && s.cbs[id].connected && !s.cbs[id].waiting
  }

  /** From index i on, nobody who would accept is left on the list. */
  ghost predicate Served(s: State, i: nat, replies: Replies) {
    forall j :: i <= j < |s.pending| && Free(s, s.pending[j]) ==> !ReplyTo(replies, s.pending[j]).Accepted?
  }

  lemma {:induction false} PassServes(s: State, i: nat, replies: Replies)
    requires Passing(s, i) && i <= |s.pending|
    ensures Served(EvaluatePending(s, i, replies), i, replies)
    decreases |replies|, |s.pending| - i
  {
    hide Passing, Advances, Apart, Outcome;
    if i < |s.pending| {
      var s1, rest := FirstVisit(s, i, replies);
      PassServes(s1, i + 1, rest);
      RestOfPass(s1, i + 1, rest);
      ServesOne(s, s1, EvaluatePending(s1, i + 1, rest), i, replies, rest);
    }
  }

  lemma RestOfPass(s: State, i: nat, replies: Replies)
    requires Passing(s, i) && i <= |s.pending|
    ensures var s' := EvaluatePending(s, i, replies);
            s.pending <= s'.pending && Distinct(s'.pending) && PassEffect(s, s', s.pending[i..], replies)
  {
    PendingOnlyGrows(s, i, replies);
    EvaluatePendingEffect(s, i, replies);
    EvaluatePendingOk(s, i, replies);
  }

  lemma ServesOne(s: State, s1: State, s': State, i: nat, replies: Replies, rest: Replies)
    requires Visit(s, i, replies, s1, rest)
    requires s1.pending <= s'.pending && Distinct(s'.pending)
    requires PassEffect(s1, s', s1.pending[i + 1..], rest) && Served(s', i + 1, rest)
    ensures Served(s', i, replies)
  {
    var id := s.pending[i];
    assert s'.pending[i] == s1.pending[i] == id;
    GrownAhead(s.pending, s1.pending, i, id, true);
    assert Outcome(s1, s', id, NotReady);
    forall j | i < j < |s'.pending| && Free(s', s'.pending[j]) ensures !ReplyTo(replies, s'.pending[j]).Accepted? {
      assert s'.pending[j] != id;
    }
  }

  /** After a pass nobody is left on the pending list who would have accepted in it,
      not even of those that joined the list while it was walked. */
  lemma NobodyLeft(s: State, replies: Replies)
    requires Quiet(s) && !s.paused
    ensures var s' := EvaluateAll(s, replies);
            forall x :: x in s'.pending && Free(s', x) && x in replies ==> !replies[x].Accepted?
  {
    forall j | 0 <= j < |s.pending| ensures s.pending[j] in s.pending { }
    forall j | 0 <= j < |s.waitlist| ensures s.waitlist[j] in s.waitlist { }
    PassServes(s, 0, replies);
    var s1, s' := EvaluatePending(s, 0, replies), EvaluateAll(s, replies);
    forall x | x in s'.pending && Free(s', x) && x in replies ensures !replies[x].Accepted? {
      assert x in s1.pending;
      var j :| 0 <= j < |s1.pending| && s1.pending[j] == x;
      assert Free(s1, s1.pending[j]);
    }
  }

  /** ... and the same at the unpause. */
  lemma UnpauseOutcome(s: State, replies: Replies)
    requires Quiet(s)
    ensures var s' := Step(s, Unpause(replies));
            && !s'.paused && s.log <= s'.log
            && forall x :: x in s.cbs ==>
                 Outcome(s, s', x, if s.cbs[x].connected && !s.cbs[x].waiting then ReplyTo(replies, x) else NotReady)
  {
    var s0 := s.(paused := false);
    PassOutcome(s0, replies);
    EvaluateAllOk(s0, replies);
    EvaluatePausedSame(s0, replies);
    forall x | x in s.cbs
      ensures Outcome(s, Step(s, Unpause(replies)), x,
                      if s.cbs[x].connected && !s.cbs[x].waiting then ReplyTo(replies, x) else NotReady)
    {
      assert Outcome(s0, EvaluateAll(s0, replies), x,
                     if s.cbs[x].connected && !s.cbs[x].waiting then ReplyTo(replies, x) else NotReady);
    }
  }

  lemma EvaluatePausedSame(s: State, replies: Replies)
    requires Quiet(s)
    ensures EvaluateAll(s, replies).paused == s.paused
  {
    if !s.paused {
      forall j | 0 <= j < |s.pending| ensures s.pending[j] in s.pending { }
      forall j | 0 <= j < |s.waitlist| ensures s.waitlist[j] in s.waitlist { }
      EvaluatePendingOk(s, 0, replies);
    }
  }

  // ----- The objfile event -----

  ghost function PassAt(passes: seq<Replies>, k: nat): Replies {
    if k < |passes| then passes[k] else map[]
  }

  ghost function PassesFrom(passes: seq<Replies>, k: nat): seq<Replies> {
    if k <= |passes| then passes[k..] else []
  }

  ghost function ReplyAt(passes: seq<Replies>, k: nat, id: Id): Reply {
    ReplyTo(PassAt(passes, k), id)
  }

  /** Over n passes: evaluated in each, until it accepts. */
  ghost function Lifetime(passes: seq<Replies>, k: nat, n: nat, id: Id): seq<Entry>
    decreases n - k
  {
    if k >= n then []
    else
      var r := ReplyAt(passes, k, id);
      Entries(id, r) + if r.Accepted? then [] else Lifetime(passes, k + 1, n, id)
  }

  ghost predicate AcceptsIn(passes: seq<Replies>, k: nat, n: nat, id: Id) {
    exists j :: k <= j < n && ReplyAt(passes, j, id).Accepted?
  }

  /** From s to s' the callback lived through the passes from k on. */
  ghost predicate LivesThrough(s: State, s': State, id: Id, passes: seq<Replies>, k: nat, n: nat) {
    && s.log <= s'.log && id in s.cbs && id in s'.cbs
    && if s.cbs[id].connected && !s.cbs[id].waiting then
         && About(New(s, s'), id) == Lifetime(passes, k, n, id)
         && s'.cbs[id] == if AcceptsIn(passes, k, n, id) then Flags(true, false, false) else s.cbs[id]
       else Outcome(s, s', id, NotReady)
  }

  lemma LivesOn(s: State, s1: State, s': State, id: Id, passes: seq<Replies>, k: nat, n: nat)
    requires k < n && id in s.cbs
    requires Outcome(s, s1, id, if s.cbs[id].connected && !s.cbs[id].waiting then ReplyAt(passes, k, id) else NotReady)
    requires LivesThrough(s1, s', id, passes, k + 1, n)
    ensures LivesThrough(s, s', id, passes, k, n)
  {
    NewTwice(s, s1, s', id);
    if s.cbs[id].connected && !s.cbs[id].waiting {
      assert AcceptsIn(passes, k, n, id) <==> ReplyAt(passes, k, id).Accepted? || AcceptsIn(passes, k + 1, n, id);
    } else {
      FirstThenNothing(s, s1, s', id, NotReady);
    }
  }

  ghost predicate AllLive(s: State, s': State, passes: seq<Replies>, k: nat, n: nat) {
    s.log <= s'.log && forall x :: x in s.cbs ==> LivesThrough(s, s', x, passes, k, n)
  }

  lemma {:induction false} EvaluateTimesOutcome(s: State, passes: seq<Replies>, k: nat, n: nat)
    requires Quiet(s) && !s.paused && k <= n
    ensures AllLive(s, EvaluateTimes(s, n - k, PassesFrom(passes, k)), passes, k, n)
    decreases n - k
  {
    if k == n {
      NoPass(s, passes, k);
    } else {
      var s1 := EvaluateAll(s, PassAt(passes, k));
      EvaluateAllOk(s, PassAt(passes, k));
      EvaluatePausedSame(s, PassAt(passes, k));
      EvaluateTimesOutcome(s1, passes, k + 1, n);
      TimesNext(s, passes, k, n - k);
      FirstPass(s, EvaluateTimes(s1, n - k - 1, PassesFrom(passes, k + 1)), passes, k, n);
    }
  }

  lemma TimesNext(s: State, passes: seq<Replies>, k: nat, n: nat)
    requires n > 0
    ensures EvaluateTimes(s, n, PassesFrom(passes, k)) ==
              EvaluateTimes(EvaluateAll(s, PassAt(passes, k)), n - 1, PassesFrom(passes, k + 1))
  {
    assert k < |passes| ==> passes[k..][1..] == passes[k + 1..];
  }

  lemma NoPass(s: State, passes: seq<Replies>, n: nat)
    ensures AllLive(s, s, passes, n, n)
  {
    ApartSilently(s, s, {});
    forall x | x in s.cbs ensures LivesThrough(s, s, x, passes, n, n) {
      assert !AcceptsIn(passes, n, n, x);
    }
  }

  lemma FirstPass(s: State, s': State, passes: seq<Replies>, k: nat, n: nat)
    requires Quiet(s) && !s.paused && k < n && AllLive(EvaluateAll(s, PassAt(passes, k)), s', passes, k + 1, n)
    ensures AllLive(s, s', passes, k, n)
  {
    var first := PassAt(passes, k);
    var s1 := EvaluateAll(s, first);
    PassOutcome(s, first);
    forall x | x in s.cbs ensures LivesThrough(s, s', x, passes, k, n) {
      assert Outcome(s, s1, x, if s.cbs[x].connected && !s.cbs[x].waiting then ReplyTo(first, x) else NotReady);
      LivesOn(s, s1, s', x, passes, k, n);
    }
  }

  /** A new objfile: while the engine is not paused, every pending callback that
      does not wait is evaluated in each of the passes until it accepts; it completes
      iff it accepts in one of them.  Paused, nothing happens. */
  lemma ObjfileOutcome(s: State, passes: seq<Replies>, id: Id)
    requires Quiet(s) && id in s.cbs
    ensures var s' := Step(s, Objfile(passes));
            && !s.paused ==> LivesThrough(s, s', id, passes, 0, |s.cbs|)
    ensures s.paused ==> Outcome(s, Step(s, Objfile(passes)), id, NotReady)
  {
    var s0 := s.(loaded := true);
    if s.paused {
      PausedPasses(s0, |s.cbs|, passes);
      ApartSilently(s, s0, {});
    } else {
      EvaluateTimesOutcome(s0, passes, 0, |s.cbs|);
      assert passes[0..] == passes;
      assert LivesThrough(s0, Step(s, Objfile(passes)), id, passes, 0, |s.cbs|);
    }
  }

  // ----- The target becomes ready -----

  /** From s to s' the callback was released, and evaluated once with this reply. */
  ghost predicate Released(s: State, s': State, id: Id, r: Reply) {
    && s.log <= s'.log && id in s.cbs && id in s'.cbs
    && About(New(s, s'), id) == Entries(id, r)
    && s'.cbs[id] == if r.Accepted? then Flags(true, false, false) else s.cbs[id].(waiting := false)
  }

  ghost predicate DrainEffect(s: State, s': State, released: seq<Id>, replies: Replies) {
    && s.log <= s'.log
    && forall x :: x in s.cbs ==>
         if x in released then Released(s, s', x, ReplyTo(replies, x)) else Outcome(s, s', x, NotReady)
  }

  lemma {:induction false} DrainEffectOf(s: State, i: nat, replies: Replies)
    requires Draining(s, i)
    ensures DrainEffect(s, Drain(s, i, replies), s.waitlist[i..], replies)
    decreases |replies|, |s.waitlist| - i
  {
    if i == |s.waitlist| {
      ApartSilently(s, s, {});
    } else {
      var id := s.waitlist[i];
      var r := ReplyTo(replies, id);
      var s0 := StopWaiting(s, id);
      var s1 := Evaluate(s0, id, r, false);
      var rest := if id in replies then replies - {id} else replies;
      StopWaitingOk(s, i);
      DrainOne(s, i, r);
      ApartSilently(s, s0, {id});
      EvaluateApart(s0, id, r, false);
      ApartTwice(s, s0, s1, {id});
      EvaluateOk(s0, id, r, false);
      ReleasedOne(s, id, r);
      DrainEffectOf(s1, i + 1, rest);
      EffectOfRelease(s, s0, s1, Drain(s1, i + 1, rest), i, replies, rest);
    }
  }

  lemma ReleasedOne(s: State, id: Id, r: Reply)
    requires id in s.cbs && !s.cbs[id].completed
    ensures Released(s, Evaluate(StopWaiting(s, id), id, r, false), id, r)
  {
    EvaluateOutcome(StopWaiting(s, id), id, r, false);
  }

  lemma EffectOfRelease(s: State, s0: State, s1: State, s': State, i: nat, replies: Replies, rest: Replies)
    requires i < |s.waitlist| && s0 == StopWaiting(s, s.waitlist[i])
    requires Advances(s0, s1, {s.waitlist[i]}) && Distinct(s1.waitlist)
    requires rest == if s.waitlist[i] in replies then replies - {s.waitlist[i]} else replies
    requires Apart(s, s1, {s.waitlist[i]}) && Released(s, s1, s.waitlist[i], ReplyTo(replies, s.waitlist[i]))
    requires i + 1 <= |s1.waitlist| && DrainEffect(s1, s', s1.waitlist[i + 1..], rest)
    ensures DrainEffect(s, s', s.waitlist[i..], replies)
  {
    forall x | x in s.cbs
      ensures if x in s.waitlist[i..] then Released(s, s', x, ReplyTo(replies, x)) else Outcome(s, s', x, NotReady)
    {
      GrownAhead(s.waitlist, s1.waitlist, i, x, x == s.waitlist[i]);
      if x == s.waitlist[i] {
        assert s.waitlist[i..][0] == x;
        assert Outcome(s1, s', x, NotReady);
        ReleasedThenNothing(s, s1, s', x, ReplyTo(replies, x));
      } else if x in s.waitlist[i..] {
        assert Released(s1, s', x, ReplyTo(rest, x));
        NothingThenReleased(s, s1, s', x, ReplyTo(rest, x));
      } else {
        assert Outcome(s1, s', x, NotReady);
        FirstThenNothing(s, s1, s', x, NotReady);
      }
    }
  }

  lemma ReleasedThenNothing(a: State, b: State, c: State, id: Id, r: Reply)
    requires Released(a, b, id, r) && Outcome(b, c, id, NotReady)
    ensures Released(a, c, id, r)
  {
    NewTwice(a, b, c, id);
    assert Entries(id, r) + [] == Entries(id, r);
  }

  lemma NothingThenReleased(a: State, b: State, c: State, id: Id, r: Reply)
    requires Outcome(a, b, id, NotReady) && Released(b, c, id, r)
    ensures Released(a, c, id, r)
  {
    NewTwice(a, b, c, id);
    assert [] + Entries(id, r) == Entries(id, r);
  }

  /** When the target becomes ready, everybody on the wait list is evaluated once; who
      accepts completes, and who does not stays pending and no longer waits.  Nothing
      happens to the others. */
  lemma TargetOutcome(s: State, replies: Replies)
    requires Quiet(s)
    ensures var s' := Step(s, Target(replies));
            && s.log <= s'.log && s'.waitlist == []
            && forall x :: x in s.cbs ==>
                 && (if x in s.waitlist then Released(s, s', x, ReplyTo(replies, x)) else Outcome(s, s', x, NotReady))
                 && (x in s'.pending <==> s'.cbs[x].connected)
  {
    forall j | 0 <= j < |s.waitlist| ensures s.waitlist[j] in s.waitlist { }
    DrainEffectOf(s, 0, replies);
    TargetReadyOk(s, replies);
    assert s.waitlist[0..] == s.waitlist;
    var s1, s' := Drain(s, 0, replies), Step(s, Target(replies));
    assert s'.log == s1.log && s'.cbs == s1.cbs;
    forall x | x in s.cbs
      ensures if x in s.waitlist then Released(s, s', x, ReplyTo(replies, x)) else Outcome(s, s', x, NotReady)
    {
      assert if x in s.waitlist then Released(s, s1, x, ReplyTo(replies, x)) else Outcome(s, s1, x, NotReady);
    }
  }

  /** In particular, of those on the wait list exactly the accepting ones complete,
      exactly the ready ones are invoked, and the rest stay pending. */
  lemma TargetCompletes(s: State, replies: Replies, id: Id)
    requires Quiet(s) && id in s.waitlist
    ensures var s' := Step(s, Target(replies));
            && s.log <= s'.log && id in s'.cbs
            && (s'.cbs[id].completed <==> id in replies && replies[id].Accepted?)
            && (Invoked(id) in New(s, s') <==> id in replies && !replies[id].NotReady?)
            && (!s'.cbs[id].completed ==> id in s'.pending && !s'.cbs[id].waiting)
  {
    TargetOutcome(s, replies);
    var s' := Step(s, Target(replies));
    assert Released(s, s', id, ReplyTo(replies, id));
    AboutMembers(New(s, s'), id, Invoked(id));
  }

  lemma {:induction false} AboutMembers(log: seq<Entry>, id: Id, e: Entry)
    requires e.id == id
    ensures e in log <==> e in About(log, id)
  {
    if log != [] {
      AboutMembers(log[1..], id, e);
    }
  }
}
