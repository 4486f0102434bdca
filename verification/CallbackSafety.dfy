/** What every run of the callback engine keeps, at every point of every pass. */
module CallbackSafety {
  import opened Callback
  import opened Collections

  /** The lists agree with the flags, up to callbacks that completed during the
      pass in progress and are still listed. */
  ghost predicate Consistent(s: State) {
    && Distinct(s.pending) && Distinct(s.waitlist)
    && (forall id :: id in s.pending ==> id in s.cbs && (s.cbs[id].connected || s.cbs[id].completed))
    && (forall id :: id in s.waitlist ==> id in s.pending)
    && (forall id :: id in s.cbs && s.cbs[id].connected ==> !s.cbs[id].completed && id in s.pending)
    && (forall id :: id in s.cbs && s.cbs[id].waiting ==> !s.cbs[id].completed)
    && (forall id :: id in s.cbs && s.cbs[id].connected && s.cbs[id].waiting ==> id in s.waitlist)
  }

  /** Nothing happens to a callback after its completion: it is neither invoked
      nor completed again, and `complete` never raises. */
  ghost predicate GoodLog(log: seq<Entry>) {
    && (forall i :: 0 <= i < |log| ==> !log[i].Raised?)
    && (forall i, j :: 0 <= i < j < |log| && log[i].Completed? ==> log[j].id != log[i].id)
  }

  ghost predicate GoodHistory(s: State) {
    && GoodLog(s.log)
    && (forall id :: Completed(id) in s.log <==> id in s.cbs && s.cbs[id].completed)
  }

  ghost predicate Inv(s: State) {
    Consistent(s) && GoodHistory(s)
  }

  /** The state between events. */
  ghost predicate Quiet(s: State) {
    && Inv(s)
    && (forall id :: id in s.pending ==> s.cbs[id].connected)
    && (forall id :: id in s.waitlist ==> s.cbs[id].waiting)
  }

  /** From s to s' nothing changed but the callbacks in `ex`, and new ones. */
  ghost predicate SameBut(s: State, s': State, ex: set<Id>) {
    && s.paused == s'.paused && s.loaded == s'.loaded
    && (forall x :: x in s.cbs ==> x in s'.cbs && (x in ex || s'.cbs[x] == s.cbs[x]))
  }

  /** The pending list grew at its end only, by connected callbacks. */
  ghost predicate PendingGrew(s: State, s': State, ex: set<Id>) {
    && s.pending <= s'.pending
    && (forall i :: |s.pending| <= i < |s'.pending| ==> Arrived(s, s', ex, s'.pending[i]))
  }

  /** The wait list grew at its end only, by connected and waiting callbacks. */
  ghost predicate WaitlistGrew(s: State, s': State, ex: set<Id>) {
    && s.waitlist <= s'.waitlist
    && (forall i :: |s.waitlist| <= i < |s'.waitlist| ==>
          Arrived(s, s', ex, s'.waitlist[i]) && s'.cbs[s'.waitlist[i]].waiting)
  }

  ghost predicate Arrived(s: State, s': State, ex: set<Id>, x: Id) {
    (x in ex || x !in s.cbs) && x in s'.cbs && s'.cbs[x].connected
  }

  ghost predicate Advances(s: State, s': State, ex: set<Id>) {
    SameBut(s, s', ex) && PendingGrew(s, s', ex) && WaitlistGrew(s, s', ex)
  }

  lemma AdvancesTransitive(a: State, b: State, c: State, ex: set<Id>)
    requires Advances(a, b, {}) && Advances(b, c, ex)
    requires forall x :: x in ex ==> x in a.cbs || (x !in b.pending && x !in b.waitlist)
    ensures Advances(a, c, set x | x in ex && x in a.cbs)
  {
    var ex' := set x | x in ex && x in a.cbs;
    forall i | |a.pending| <= i < |c.pending| ensures Arrived(a, c, ex', c.pending[i]) {
      if i < |b.pending| {
        assert c.pending[i] == b.pending[i];
        assert Arrived(a, b, {}, b.pending[i]);
      } else {
        assert Arrived(b, c, ex, c.pending[i]);
      }
    }
    forall i | |a.waitlist| <= i < |c.waitlist|
      ensures Arrived(a, c, ex', c.waitlist[i]) && c.cbs[c.waitlist[i]].waiting
    {
      if i < |b.waitlist| {
        assert c.waitlist[i] == b.waitlist[i];
        assert Arrived(a, b, {}, b.waitlist[i]);
      } else {
        assert Arrived(b, c, ex, c.waitlist[i]);
      }
    }
  }

  // ----- Single changes -----

  lemma NoteOk(s: State, e: Entry)
    requires GoodLog(s.log) && !e.Raised?
    requires Completed(e.id) !in s.log
    ensures GoodLog(Note(s, e).log)
    ensures forall x :: Completed(x) in Note(s, e).log <==> Completed(x) in s.log || Completed(x) == e
  {
    var log := s.log + [e];
    forall i | 0 <= i < |s.log| && s.log[i].Completed? ensures s.log[i].id != e.id {
      assert s.log[i] in s.log;
    }
  }

  lemma InvokedOk(s: State, id: Id)
    requires Inv(s) && id in s.cbs && !s.cbs[id].completed
    ensures Inv(Note(s, Invoked(id))) && Advances(s, Note(s, Invoked(id)), {})
  {
    NoteOk(s, Invoked(id));
  }

  lemma CompleteOk(s: State, id: Id, updateNow: bool)
    requires Inv(s) && id in s.cbs && !s.cbs[id].completed && !s.cbs[id].waiting
    requires updateNow ==> !s.cbs[id].connected
    ensures var s' := Complete(s, id, updateNow); Inv(s') && Advances(s, s', {id})
  {
    var s' := Complete(s, id, updateNow);
    NoteOk(s.(cbs := s'.cbs), Completed(id));
    assert s'.cbs == s.cbs[id := Flags(true, false, false)];
    assert s'.pending == s.pending && s'.waitlist == s.waitlist;
  }

  lemma ConstructOk(s: State, id: Id, waits: bool)
    requires Inv(s)
    ensures Inv(Construct(s, id, waits)) && Advances(s, Construct(s, id, waits), {})
    ensures id !in s.cbs ==> id !in s.pending && id !in s.waitlist
  {
    ConstructConsistent(s, id, waits);
    ConstructHistory(s, id, waits);
  }

  lemma ConstructConsistent(s: State, id: Id, waits: bool)
    requires Consistent(s)
    ensures Consistent(Construct(s, id, waits))
    ensures id !in s.cbs ==> id !in s.pending && id !in s.waitlist
  {
  }

  lemma ConstructHistory(s: State, id: Id, waits: bool)
    requires GoodHistory(s)
    ensures GoodHistory(Construct(s, id, waits))
  {
    var s' := Construct(s, id, waits);
    forall x ensures Completed(x) in s'.log <==> x in s'.cbs && s'.cbs[x].completed {
      assert Completed(x) in s.log <==> x in s.cbs && s.cbs[x].completed;
    }
  }

  lemma AppendNew(xs: seq<Id>, x: Id)
    requires Distinct(xs) && x !in xs
    ensures Distinct(xs + [x])
    ensures forall y :: y in xs + [x] <==> y in xs || y == x
  {
  }

  /** Joining the pending list, for a callback that is not waiting. */
  lemma EnlistOk(s: State, id: Id)
    requires Inv(s) && id in s.cbs && !s.cbs[id].completed && !s.cbs[id].connected && !s.cbs[id].waiting
    ensures Inv(Enlist(s, id)) && Advances(s, Enlist(s, id), {id})
  {
    AppendNew(s.pending, id);
    assert Consistent(Enlist(s, id));
  }

  /** Joining the wait list and the pending list, for one that is. */
  lemma EnlistWaitingOk(s: State, id: Id)
    requires Inv(s) && id in s.cbs && !s.cbs[id].completed && !s.cbs[id].connected && s.cbs[id].waiting
    ensures var s' := Enlist(s.(waitlist := s.waitlist + [id]), id); Inv(s') && Advances(s, s', {id})
  {
    assert id !in s.pending && id !in s.waitlist;
    AppendNew(s.pending, id);
    AppendNew(s.waitlist, id);
    assert Consistent(Enlist(s.(waitlist := s.waitlist + [id]), id));
  }

  // ----- Evaluating one callback, and all it registers -----

  lemma {:induction false} EvaluateOk(s: State, id: Id, r: Reply, updateNow: bool)
    requires Inv(s) && id in s.cbs && !s.cbs[id].completed
    requires updateNow ==> !s.cbs[id].connected
    ensures Inv(Evaluate(s, id, r, updateNow)) && Advances(s, Evaluate(s, id, r, updateNow), {id})
    ensures var f := Evaluate(s, id, r, updateNow).cbs[id]; f == s.cbs[id] || f == Flags(true, false, false)
    decreases r, 3
  {
    if !s.cbs[id].waiting && !r.NotReady? {
      var s0 := Note(s, Invoked(id));
      InvokedOk(s, id);
      var s1 := RegisterAll(s0, r.regs);
      RegisterAllOk(s0, r.regs);
      AdvancesTransitive(s, s0, s1, {});
      if r.Accepted? {
        CompleteAfter(s, s1, id, updateNow);
      }
    }
  }

  lemma CompleteAfter(s: State, s1: State, id: Id, updateNow: bool)
    requires Inv(s1) && Advances(s, s1, {}) && id in s.cbs && !s.cbs[id].completed && !s.cbs[id].waiting
    requires updateNow ==> !s.cbs[id].connected
    ensures Inv(Complete(s1, id, updateNow)) && Advances(s, Complete(s1, id, updateNow), {id})
    ensures Complete(s1, id, updateNow).cbs[id] == Flags(true, false, false)
  {
    CompleteOk(s1, id, updateNow);
    AdvancesTransitive(s, s1, Complete(s1, id, updateNow), {id});
  }

  lemma {:induction false} RegisterAllOk(s: State, regs: seq<Registration>)
    requires Inv(s)
    ensures Inv(RegisterAll(s, regs)) && Advances(s, RegisterAll(s, regs), {})
    decreases regs, 2
  {
    if regs != [] {
      RegisterOk(s, regs[0]);
      var s1 := Register(s, regs[0]);
      RegisterAllOk(s1, regs[1..]);
      AdvancesTransitive(s, s1, RegisterAll(s1, regs[1..]), {});
    }
  }

  lemma {:induction false} RegisterOk(s: State, reg: Registration)
    requires Inv(s)
    ensures Inv(Register(s, reg)) && Advances(s, Register(s, reg), {})
    decreases reg, 1
  {
    if reg.id !in s.cbs {
      var s0 := Construct(s, reg.id, reg.waits);
      ConstructOk(s, reg.id, reg.waits);
      ConnectOk(s0, reg.id, reg.reply);
      AdvancesTransitive(s, s0, Connect(s0, reg.id, reg.reply), {reg.id});
    }
  }

  lemma {:induction false} ConnectOk(s: State, id: Id, r: Reply)
    requires Inv(s) && id in s.cbs
    ensures Inv(Connect(s, id, r)) && Advances(s, Connect(s, id, r), {id})
    decreases r, 4
  {
    if !s.cbs[id].completed && !s.cbs[id].connected {
      if !s.cbs[id].waiting && s.loaded {
        EvaluateOk(s, id, r, true);
        if !Evaluate(s, id, r, true).cbs[id].completed {
          EnlistAfter(s, Evaluate(s, id, r, true), id);
        }
      } else if s.cbs[id].waiting {
        EnlistWaitingOk(s, id);
      } else {
        EnlistOk(s, id);
      }
    }
  }

  lemma EnlistAfter(s: State, s1: State, id: Id)
    requires Inv(s1) && Advances(s, s1, {id}) && id in s.cbs && s1.cbs[id] == s.cbs[id]
    requires !s.cbs[id].completed && !s.cbs[id].connected && !s.cbs[id].waiting
    ensures Inv(Enlist(s1, id)) && Advances(s, Enlist(s1, id), {id})
  {
    assert Advances(s, s1, {});
    EnlistOk(s1, id);
    AdvancesTransitive(s, s1, Enlist(s1, id), {id});
  }

  // ----- Passes -----

  ghost predicate WaitersWait(s: State, i: nat) {
    forall j :: i <= j < |s.waitlist| && s.waitlist[j] in s.cbs ==> s.cbs[s.waitlist[j]].waiting
  }

  ghost predicate PendingFrom(s: State, i: nat) {
    forall j :: i <= j < |s.pending| && s.pending[j] in s.cbs ==> s.cbs[s.pending[j]].connected
  }

  /** The pending list from index i on, and the wait list, agree with the flags. */
  ghost predicate Passing(s: State, i: nat) {
    Inv(s) && PendingFrom(s, i) && WaitersWait(s, 0)
  }

  lemma {:induction false} EvaluatePendingOk(s: State, i: nat, replies: Replies)
    requires Passing(s, i)
    ensures var s' := EvaluatePending(s, i, replies); Inv(s') && WaitersWait(s', 0) && s'.paused == s.paused
    decreases |replies|, |s.pending| - i
  {
    if i < |s.pending| {
      var id := s.pending[i];
      if id in replies {
        PassOne(s, i, replies[id]);
        EvaluatePendingOk(Evaluate(s, id, replies[id], false), i + 1, replies - {id});
      } else {
        EvaluatePendingOk(s, i + 1, replies);
      }
    }
  }

  lemma PassOne(s: State, i: nat, r: Reply)
    requires Passing(s, i) && i < |s.pending|
    ensures var s' := Evaluate(s, s.pending[i], r, false); Passing(s', i + 1) && s'.paused == s.paused
  {
    var id := s.pending[i];
    assert id in s.pending;
    EvaluateOk(s, id, r, false);
    VisitPending(s, Evaluate(s, id, r, false), i);
  }

  lemma VisitPending(s: State, s': State, i: nat)
    requires Inv(s) && Inv(s') && PendingFrom(s, i) && WaitersWait(s, 0) && i < |s.pending|
    requires Advances(s, s', {s.pending[i]})
    requires var f := s'.cbs[s.pending[i]]; f == s.cbs[s.pending[i]] || (!s.cbs[s.pending[i]].waiting && f.completed)
    ensures PendingFrom(s', i + 1) && WaitersWait(s', 0)
  {
    forall j | i + 1 <= j < |s'.pending| && s'.pending[j] in s'.cbs ensures s'.cbs[s'.pending[j]].connected {
      if j < |s.pending| {
        assert s'.pending[j] == s.pending[j] && s.pending[j] in s.pending;
      }
    }
    forall j | 0 <= j < |s'.waitlist| && s'.waitlist[j] in s'.cbs ensures s'.cbs[s'.waitlist[j]].waiting {
      if j < |s.waitlist| {
        assert s'.waitlist[j] == s.waitlist[j] && s.waitlist[j] in s.waitlist;
      }
    }
  }

  lemma {:induction false} ConnectedOnce(s: State, xs: seq<Id>)
    requires Distinct(xs)
    ensures Distinct(Connected(s, xs))
  {
    if xs != [] {
      ConnectedOnce(s, xs[1..]);
      assert xs[0] !in xs[1..];
    }
  }

  lemma UpdatePendingOk(s: State)
    requires Inv(s) && WaitersWait(s, 0)
    ensures Quiet(UpdatePending(s))
  {
    ConnectedOnce(s, s.pending);
    forall x | x in s.waitlist ensures x in s.cbs && s.cbs[x].waiting && s.cbs[x].connected {
      assert x in s.pending;
    }
  }

  lemma EvaluateAllOk(s: State, replies: Replies)
    requires Quiet(s)
    ensures Quiet(EvaluateAll(s, replies))
  {
    if !s.paused {
      forall j | 0 <= j < |s.pending| ensures s.pending[j] in s.pending { }
      forall j | 0 <= j < |s.waitlist| ensures s.waitlist[j] in s.waitlist { }
      EvaluatePendingOk(s, 0, replies);
      UpdatePendingOk(EvaluatePending(s, 0, replies));
    }
  }

  lemma {:induction false} EvaluateTimesOk(s: State, n: nat, passes: seq<Replies>)
    requires Quiet(s)
    ensures Quiet(EvaluateTimes(s, n, passes))
    decreases n
  {
    if n > 0 {
      var first: Replies := if passes == [] then map[] else passes[0];
      EvaluateAllOk(s, first);
      EvaluateTimesOk(EvaluateAll(s, first), n - 1, if passes == [] then [] else passes[1..]);
    }
  }

  /** While the engine is paused, passes do nothing. */
  lemma {:induction false} PausedPasses(s: State, n: nat, passes: seq<Replies>)
    requires s.paused
    ensures EvaluateTimes(s, n, passes) == s
    decreases n
  {
    if n > 0 {
      PausedPasses(s, n - 1, if passes == [] then [] else passes[1..]);
    }
  }

  ghost predicate DrainedTo(s: State, i: nat) {
    forall j :: 0 <= j < i <= |s.waitlist| && s.waitlist[j] in s.cbs ==> !s.cbs[s.waitlist[j]].waiting
  }

  lemma StopWaitingOk(s: State, i: nat)
    requires Inv(s) && i < |s.waitlist| && WaitersWait(s, i) && DrainedTo(s, i)
    ensures var id := s.waitlist[i];
            var s' := StopWaiting(s, id);
            && id in s'.cbs && !s'.cbs[id].completed
            && Inv(s') && WaitersWait(s', i + 1) && DrainedTo(s', i + 1)
  {
    var id := s.waitlist[i];
    assert id in s.waitlist && id in s.pending;
  }

  lemma VisitWaiting(s: State, s': State, i: nat)
    requires Inv(s) && Inv(s') && i < |s.waitlist| && WaitersWait(s, i + 1) && DrainedTo(s, i + 1)
    requires Advances(s, s', {s.waitlist[i]})
    requires var f := s'.cbs[s.waitlist[i]]; f == s.cbs[s.waitlist[i]] || f == Flags(true, false, false)
    ensures WaitersWait(s', i + 1) && DrainedTo(s', i + 1)
  {
    forall j | 0 <= j < |s.waitlist| ensures s'.waitlist[j] == s.waitlist[j] && s.waitlist[j] in s.cbs {
      assert s.waitlist[j] in s.waitlist;
    }
  }

  ghost predicate Draining(s: State, i: nat) {
    Inv(s) && WaitersWait(s, i) && DrainedTo(s, i) && i <= |s.waitlist|
  }

  lemma DrainOne(s: State, i: nat, r: Reply)
    requires Draining(s, i) && i < |s.waitlist|
    ensures var s1 := StopWaiting(s, s.waitlist[i]);
            Draining(s1, i + 1) && Draining(Evaluate(s1, s.waitlist[i], r, false), i + 1)
  {
    var id := s.waitlist[i];
    var s1 := StopWaiting(s, id);
    StopWaitingOk(s, i);
    EvaluateOk(s1, id, r, false);
    VisitWaiting(s1, Evaluate(s1, id, r, false), i);
  }

  lemma {:induction false} DrainOk(s: State, i: nat, replies: Replies)
    requires Draining(s, i)
    ensures var s' := Drain(s, i, replies); Inv(s') && DrainedTo(s', |s'.waitlist|)
    decreases |replies|, |s.waitlist| - i
  {
    if i < |s.waitlist| {
      var id := s.waitlist[i];
      var s1 := StopWaiting(s, id);
      DrainOne(s, i, if id in replies then replies[id] else NotReady);
      if id in replies {
        DrainOk(Evaluate(s1, id, replies[id], false), i + 1, replies - {id});
      } else {
        DrainOk(s1, i + 1, replies);
      }
    }
  }

  lemma TargetReadyOk(s: State, replies: Replies)
    requires Quiet(s)
    ensures Quiet(TargetReady(s, replies))
  {
    forall j | 0 <= j < |s.waitlist| ensures s.waitlist[j] in s.waitlist { }
    DrainOk(s, 0, replies);
    var s1 := Drain(s, 0, replies);
    forall x | x in s1.waitlist ensures x in s1.cbs && !s1.cbs[x].waiting {
      assert x in s1.pending;
      var j :| 0 <= j < |s1.waitlist| && s1.waitlist[j] == x;
    }
    UpdatePendingOk(s1.(waitlist := []));
  }

  // ----- Events and runs -----

  /** Every event leaves the lists exact and the history clean. */
  lemma StepOk(s: State, e: Event)
    requires Quiet(s)
    ensures Quiet(Step(s, e))
  {
    match e
    case Create(id, waits) => ConstructOk(s, id, waits);
    case ConnectCallback(id, r) =>
      if id in s.cbs {
        ConnectOk(s, id, r);
        ConnectQuiet(s, id, r);
      }
    case Objfile(passes) => EvaluateTimesOk(s.(loaded := true), |s.cbs|, passes);
    case Pause =>
    case Unpause(replies) => EvaluateAllOk(s.(paused := false), replies);
    case Target(replies) => TargetReadyOk(s, replies);
  }

  lemma ConnectQuiet(s: State, id: Id, r: Reply)
    requires Quiet(s) && id in s.cbs
    requires Inv(Connect(s, id, r)) && Advances(s, Connect(s, id, r), {id})
    ensures Quiet(Connect(s, id, r))
  {
    var s' := Connect(s, id, r);
    if !s.cbs[id].completed && !s.cbs[id].connected {
      assert id !in s.pending && id !in s.waitlist;
      PendingStays(s, s', id);
      WaitersStay(s, s', id);
    }
  }

  lemma PendingStays(s: State, s': State, id: Id)
    requires Quiet(s) && Advances(s, s', {id}) && id !in s.pending
    ensures forall x :: x in s'.pending ==> x in s'.cbs && s'.cbs[x].connected
  {
    forall x | x in s'.pending ensures x in s'.cbs && s'.cbs[x].connected {
      var j :| 0 <= j < |s'.pending| && s'.pending[j] == x;
      assert j < |s.pending| ==> s.pending[j] == x && x in s.pending;
    }
  }

  lemma WaitersStay(s: State, s': State, id: Id)
    requires Quiet(s) && Advances(s, s', {id}) && id !in s.waitlist
    ensures forall x :: x in s'.waitlist ==> x in s'.cbs && s'.cbs[x].waiting
  {
    forall x | x in s'.waitlist ensures x in s'.cbs && s'.cbs[x].waiting {
      var j :| 0 <= j < |s'.waitlist| && s'.waitlist[j] == x;
      assert j < |s.waitlist| ==> s.waitlist[j] == x && x in s.waitlist;
    }
  }

  lemma {:induction false} RunOk(s: State, events: seq<Event>)
    requires Quiet(s)
    ensures Quiet(Run(s, events))
    decreases events
  {
    if events != [] {
      StepOk(s, events[0]);
      RunOk(Step(s, events[0]), events[1..]);
    }
  }

  /** After every run: the pending list holds each connected, uncompleted callback
      once and nothing else, whoever of them is still waiting is on the wait list
      and nobody else is, and no callback was ever completed twice, invoked after
      completion, or made `complete` raise. */
  lemma EveryRun(events: seq<Event>)
    ensures var s := Run(INITIAL, events);
            && (forall id :: id in s.pending <==> id in s.cbs && s.cbs[id].connected && !s.cbs[id].completed)
            && (forall id :: id in s.cbs ==> !(s.cbs[id].connected && s.cbs[id].completed))
            && (forall id :: id in s.waitlist <==> id in s.pending && s.cbs[id].waiting)
            && Distinct(s.pending) && Distinct(s.waitlist)
            && (forall i :: 0 <= i < |s.log| ==> !s.log[i].Raised?)
            && (forall i, j :: 0 <= i < j < |s.log| && s.log[i].Completed? ==> s.log[j].id != s.log[i].id)
            && (forall id :: Completed(id) in s.log <==> id in s.cbs && s.cbs[id].completed)
  {
    RunOk(INITIAL, events);
  }
}
