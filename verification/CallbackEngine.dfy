/** `ObjfileEventCallback` in its own form: class-level lists and switches that
    methods update in place.  Each method is tied to the state-machine function
    of the same name, so that what holds of every run of the state machine holds
    of every run of the engine. */
module CallbackEngine {
  import opened Callback
  import CallbackSafety

  lemma ConnectedNext(s: State, xs: seq<Id>, i: nat, kept: seq<Id>)
    requires i < |xs|
    ensures kept + Connected(s, xs[i..]) ==
              (if xs[i] in s.cbs && s.cbs[xs[i]].connected then kept + [xs[i]] else kept) + Connected(s, xs[i + 1..])
  {
    assert xs[i..][1..] == xs[i + 1..];
  }

  class Engine {
    var cbs: map<Id, Flags>
    var pending: seq<Id>
    var waitlist: seq<Id>
    var paused: bool
    var loaded: bool
    ghost var log: seq<Entry>

    ghost function View(): State
      reads this
    {
      State(cbs, pending, waitlist, paused, loaded, log)
    }

    constructor ()
      ensures View() == INITIAL
    {
      cbs, pending, waitlist, paused, loaded, log := map[], [], [], false, false, [];
    }

    method UpdatePending()
      modifies this
      ensures View() == Callback.UpdatePending(old(View()))
    {
      var kept: seq<Id> := [];
      var i := 0;
      while i < |pending|
        invariant 0 <= i <= |pending| && unchanged(this)
        invariant kept + Connected(View(), pending[i..]) == Connected(View(), pending)
      {
        ConnectedNext(View(), pending, i, kept);
        if pending[i] in cbs && cbs[pending[i]].connected {
          kept := kept + [pending[i]];
        }
        i := i + 1;
      }
      assert pending[i..] == [];
      pending := kept;
    }

    method Complete(id: Id, updateNow: bool)
      requires id in cbs
      modifies this
      ensures View() == Callback.Complete(old(View()), id, updateNow)
    {
      if !cbs[id].completed {
        var wasConnected := cbs[id].connected;
        cbs := cbs[id := Flags(true, false, cbs[id].waiting)];
        log := log + [Completed(id)];
        if wasConnected && updateNow {
          UpdatePending();
        }
      } else {
        log := log + [Raised(id)];
      }
    }

    method Evaluate(id: Id, r: Reply, updateNow: bool)
      modifies this
      ensures View() == Callback.Evaluate(old(View()), id, r, updateNow)
      decreases r, 3
    {
      if id in cbs && !cbs[id].waiting && !r.NotReady? {
        log := log + [Invoked(id)];
        RegisterAll(r.regs);
        if r.Accepted? {
          Complete(id, updateNow);
        }
      }
    }

    /** The body of a user callback, as far as the engine sees it. */
    method RegisterAll(regs: seq<Registration>)
      modifies this
      ensures View() == Callback.RegisterAll(old(View()), regs)
      decreases regs, 2
    {
      var i := 0;
      while i < |regs|
        invariant 0 <= i <= |regs|
        invariant Callback.RegisterAll(View(), regs[i..]) == Callback.RegisterAll(old(View()), regs)
      {
        Register(regs[i]);
        assert regs[i..][1..] == regs[i + 1..];
        i := i + 1;
      }
    }

    method Register(reg: Registration)
      modifies this
      ensures View() == Callback.Register(old(View()), reg)
      decreases reg, 1
    {
      if reg.id !in cbs {
        Construct(reg.id, reg.waits);
        var _ := ConnectCallback(reg.id, reg.reply);
      }
    }

    method Construct(id: Id, waits: bool)
      modifies this
      ensures View() == Callback.Construct(old(View()), id, waits)
    {
      if id !in cbs {
        cbs := cbs[id := Flags(false, false, waits)];
      }
    }

    /** `raised` is the CallbackCompleted exception. */
    method ConnectCallback(id: Id, r: Reply) returns (raised: bool)
      requires id in cbs
      modifies this
      ensures raised == old(cbs[id].completed)
      ensures View() == Connect(old(View()), id, r)
      decreases r, 4
    {
      raised := cbs[id].completed;
      if cbs[id].completed || cbs[id].connected {
        return;
      }
      if !cbs[id].waiting {
        if loaded {
          Evaluate(id, r, true);
        }
      } else {
        waitlist := waitlist + [id];
      }
      if !cbs[id].completed {
        cbs := cbs[id := cbs[id].(connected := true)];
        pending := pending + [id];
      }
    }

    method EvaluateAll(replies: Replies)
      modifies this
      ensures View() == Callback.EvaluateAll(old(View()), replies)
    {
      if !paused {
        var i, rest := 0, replies;
        while i < |pending|
          invariant EvaluatePending(View(), i, rest) == EvaluatePending(old(View()), 0, replies)
          decreases |rest|, |pending| - i
        {
          var id := pending[i];
          if id in rest {
            Evaluate(id, rest[id], false);
            assert |rest - {id}| < |rest| by {
              assert rest == (rest - {id})[id := rest[id]];
            }
            rest := rest - {id};
          }
          i := i + 1;
        }
        UpdatePending();
      }
    }

    method TargetReady(replies: Replies)
      modifies this
      ensures View() == Callback.TargetReady(old(View()), replies)
    {
      var i, rest := 0, replies;
      while i < |waitlist|
        invariant Drain(View(), i, rest) == Drain(old(View()), 0, replies)
        decreases |rest|, |waitlist| - i
      {
        var id := waitlist[i];
        if id in cbs {
          cbs := cbs[id := cbs[id].(waiting := false)];
        }
        if id in rest {
          Evaluate(id, rest[id], false);
          assert |rest - {id}| < |rest| by {
            assert rest == (rest - {id})[id := rest[id]];
          }
          rest := rest - {id};
        }
        i := i + 1;
      }
      waitlist := [];
      UpdatePending();
    }

    method NewObjfile(passes: seq<Replies>)
      modifies this
      ensures View() == Callback.NewObjfile(old(View()), passes)
    {
      var handlers := |cbs|;
      loaded := true;
      var i := 0;
      while i < handlers
        invariant 0 <= i <= handlers
        invariant EvaluateTimes(View(), handlers - i, if i <= |passes| then passes[i..] else [])
               == Callback.NewObjfile(old(View()), passes)
      {
        if i < |passes| {
          assert passes[i..][1..] == passes[i + 1..];
          EvaluateAll(passes[i]);
        } else {
          EvaluateAll(map[]);
        }
        i := i + 1;
      }
    }

    method Pause()
      modifies this
      ensures View() == old(View()).(paused := true)
    {
      paused := true;
    }

    method Unpause(replies: Replies)
      modifies this
      ensures View() == Callback.EvaluateAll(old(View()).(paused := false), replies)
    {
      paused := false;
      EvaluateAll(replies);
    }

    method HandleOne(e: Event)
      modifies this
      ensures View() == Step(old(View()), e)
    {
      match e {
        case Create(id, waits) => Construct(id, waits);
        case ConnectCallback(id, r) =>
          if id in cbs {
            var _ := ConnectCallback(id, r);
          }
        case Objfile(passes) => NewObjfile(passes);
        case Pause => Pause();
        case Unpause(replies) => Unpause(replies);
        case Target(replies) => TargetReady(replies);
      }
    }

    /** Any sequence of events, from the state it is in. */
    method Handle(events: seq<Event>)
      requires CallbackSafety.Quiet(View())
      modifies this
      ensures View() == Run(old(View()), events)
      ensures CallbackSafety.Quiet(View())
    {
      CallbackSafety.RunOk(View(), events);
      var i := 0;
      while i < |events|
        invariant 0 <= i <= |events|
        invariant Run(View(), events[i..]) == Run(old(View()), events)
      {
        HandleOne(events[i]);
        assert events[i..][1..] == events[i + 1..];
        i := i + 1;
      }
    }
  }
}
