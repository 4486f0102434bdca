/** The objfile callback engine (crash/infra/callback.py) as a state machine.

    What a callback's own code does when it is evaluated is an input: a `Reply`
    says whether it was ready, whether it accepted, and which new callbacks it
    constructed and connected while it ran, each with its own reply for the case
    that it is evaluated on the spot.
 */
module Callback {

  type Id = nat

  datatype Reply =
    | NotReady                              // check_ready gave None or False, or raised gdb.error
    | Declined(regs: seq<Registration>)     // callback ran and returned False, or raised gdb.error
    | Accepted(regs: seq<Registration>)     // callback ran and returned True or None

  /** A callback constructed and connected from inside another one. */
  datatype Registration = Registration(id: Id, waits: bool, reply: Reply)

  datatype Flags = Flags(completed: bool, connected: bool, waiting: bool)

  datatype Entry = Invoked(id: Id) | Completed(id: Id) | Raised(id: Id)

  /** The class-level lists and switches, the flags of every object constructed
      so far, and a history of what was called. */
  datatype State = State(
    cbs: map<Id, Flags>,
    pending: seq<Id>,
    waitlist: seq<Id>,
    paused: bool,
    loaded: bool,
    log: seq<Entry>)

  type Replies = map<Id, Reply>

  const INITIAL := State(map[], [], [], false, false, [])

  // ----- One object -----

  function Connected(s: State, xs: seq<Id>): (r: seq<Id>)
    ensures forall x :: x in r <==> x in xs && x in s.cbs && s.cbs[x].connected
  {
    if xs == [] then []
    else if xs[0] in s.cbs && s.cbs[xs[0]].connected then [xs[0]] + Connected(s, xs[1..])
    else Connected(s, xs[1..])
  }

  function UpdatePending(s: State): State {
    s.(pending := Connected(s, s.pending))
  }

  function Note(s: State, e: Entry): State {
    s.(log := s.log + [e])
  }

  function Complete(s: State, id: Id, updateNow: bool): State
    requires id in s.cbs
  {
    var f := s.cbs[id];
    if f.completed then Note(s, Raised(id))
    else
      var s1 := Note(s.(cbs := s.cbs[id := f.(completed := true, connected := false)]), Completed(id));
      if f.connected && updateNow then UpdatePending(s1) else s1
  }

  function Evaluate(s: State, id: Id, r: Reply, updateNow: bool): (s': State)
    ensures s.cbs.Keys <= s'.cbs.Keys
    decreases r, 3
  {
    if id !in s.cbs || s.cbs[id].waiting || r.NotReady? then s
    else
      var s1 := RegisterAll(Note(s, Invoked(id)), r.regs);
      if r.Accepted? then Complete(s1, id, updateNow) else s1
  }

  function RegisterAll(s: State, regs: seq<Registration>): (s': State)
    ensures s.cbs.Keys <= s'.cbs.Keys
    decreases regs, 2
  {
    if regs == [] then s
    else RegisterAll(Register(s, regs[0]), regs[1..])
  }

  /** Construction gives a new object, so an id in use is not a construction. */
  function Register(s: State, reg: Registration): (s': State)
    ensures s.cbs.Keys <= s'.cbs.Keys
    decreases reg, 1
  {
    if reg.id in s.cbs then s
    else Connect(Construct(s, reg.id, reg.waits), reg.id, reg.reply)
  }

  function Construct(s: State, id: Id, waits: bool): State {
    if id in s.cbs then s else s.(cbs := s.cbs[id := Flags(false, false, waits)])
  }

  /** `connect_callback`.  On a completed callback it raises to its caller and
      changes nothing; on a connected one it returns. */
  function Connect(s: State, id: Id, r: Reply): (s': State)
    requires id in s.cbs
    ensures s.cbs.Keys <= s'.cbs.Keys
    decreases r, 4
  {
    if s.cbs[id].completed || s.cbs[id].connected then s
    else
      var s1 :=
        if s.cbs[id].waiting then s.(waitlist := s.waitlist + [id])
        else if s.loaded then Evaluate(s, id, r, true)
        else s;
      if s1.cbs[id].completed then s1 else Enlist(s1, id)
  }

  function Enlist(s: State, id: Id): State
    requires id in s.cbs
  {
    s.(cbs := s.cbs[id := s.cbs[id].(connected := true)], pending := s.pending + [id])
  }

  // ----- Whole passes -----

  /** The loop over the pending list from index i on.  The list may grow while it
      is walked; an entry of `replies` is used up when its callback is visited. */
  function EvaluatePending(s: State, i: nat, replies: Replies): State
    decreases |replies|, |s.pending| - i
  {
    if i >= |s.pending| then s
    else
      var id := s.pending[i];
      if id in replies then EvaluatePending(Evaluate(s, id, replies[id], false), i + 1, replies - {id})
      else EvaluatePending(s, i + 1, replies)
  }

  function EvaluateAll(s: State, replies: Replies): State {
    if s.paused then s else UpdatePending(EvaluatePending(s, 0, replies))
  }

  function StopWaiting(s: State, id: Id): State {
    if id in s.cbs then s.(cbs := s.cbs[id := s.cbs[id].(waiting := false)]) else s
  }

  /** The loop of `target_ready` over the wait list, which may grow as well. */
  function Drain(s: State, i: nat, replies: Replies): State
    decreases |replies|, |s.waitlist| - i
  {
    if i >= |s.waitlist| then s
    else
      var id := s.waitlist[i];
      var s1 := StopWaiting(s, id);
      if id in replies then Drain(Evaluate(s1, id, replies[id], false), i + 1, replies - {id})
      else Drain(s1, i + 1, replies)
  }

  function TargetReady(s: State, replies: Replies): State {
    UpdatePending(Drain(s, 0, replies).(waitlist := []))
  }

  function EvaluateTimes(s: State, n: nat, passes: seq<Replies>): State
    decreases n
  {
    if n == 0 then s
    else if passes == [] then EvaluateTimes(EvaluateAll(s, map[]), n - 1, [])
    else EvaluateTimes(EvaluateAll(s, passes[0]), n - 1, passes[1..])
  }

  /** Every constructed object has hooked itself to the event, so one new objfile
      runs one pass per object. */
  function NewObjfile(s: State, passes: seq<Replies>): State {
    EvaluateTimes(s.(loaded := true), |s.cbs|, passes)
  }

  datatype Event =
    | Create(id: Id, waits: bool)
    | ConnectCallback(id: Id, reply: Reply)
    | Objfile(passes: seq<Replies>)
    | Pause
    | Unpause(replies: Replies)
    | Target(replies: Replies)

  function Step(s: State, e: Event): State {
    match e
    case Create(id, waits) => Construct(s, id, waits)
    case ConnectCallback(id, r) => if id in s.cbs then Connect(s, id, r) else s
    case Objfile(passes) => NewObjfile(s, passes)
    case Pause => s.(paused := true)
    case Unpause(replies) => EvaluateAll(s.(paused := false), replies)
    case Target(replies) => TargetReady(s, replies)
  }

  function Run(s: State, events: seq<Event>): State
    decreases events
  {
    if events == [] then s else Run(Step(s, events[0]), events[1..])
  }
}
