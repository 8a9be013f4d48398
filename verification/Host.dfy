/** The host's lifecycle: `Run`, the server goroutine and the lease goroutine as
    one machine whose labels are what each of them does and sees. */
module Host {
  import opened Prelude
  import opened Errors
  import opened HostErrors

  const SERVER_CLOSED := Sentinel("http: Server closed")
  const NO_HOST := Message("host and context are required")
  const NO_SERVER := Message("server factory returned nil")

  datatype Source = Server | Lease

  function StoppedEarly(source: Source): Error {
    match source
    case Server => Message("server stopped before host cancellation")
    case Lease => Message("registration lease stopped before host cancellation")
  }

  /** Where `Run` is. After the first select it may read the context's error
      twice, and the context may end between the two. */
  datatype Pc =
    | Entry | Making | Registering | Launching | LaunchingLease | Selecting
    | FirstRead(source: Source) | SecondRead(source: Source, err: Error)
    | Cancelling | ShuttingDown | AwaitingServer | AwaitingLease | Deregistering | Done

  /** A goroutine that makes one call and sends its result. */
  datatype Routine = Idle | Running | Returned(err: Option<Error>) | Finished

  /** A channel with one slot. */
  type Slot = Option<Option<Error>>

  /** A goroutine, its channel, and whether Run is through with it after the first select. */
  datatype Worker = Worker(routine: Routine, slot: Slot, stopped: bool)

  datatype State = State(
    pc: Pc,
    managed: bool,            // the host has a registration
    ended: bool,              // the context was ended from outside
    cancelled: bool,          // Run has called cancel
    deadline: bool,           // the shutdown timeout has passed
    server: Worker, lease: Worker)

  datatype Label =
    // Run
    | Refused | Accepted | ServerMade(ok: bool) | Registered(err: Option<Error>) | ServerStarted | LeaseStarted
    | SawEnd | Took(source: Source, err: Option<Error>)
    | ReadNil(source: Source, live: bool) | Judged(source: Source, failure: Error, live: bool)
    | Cancelled | ShutDown(err: Option<Error>)
    | Stopped(source: Source, err: Option<Error>) | Overdue(source: Source)
    | Deregistered(err: Option<Error>)
    // everything else
    | Ended | DeadlinePassed | CallReturned(source: Source, err: Option<Error>) | Sent(source: Source)

  function Start(managed: bool): State {
    State(Entry, managed, false, false, false, Worker(Idle, None, false), Worker(Idle, None, !managed))
  }

  predicate Live(s: State) {
    !s.ended && !s.cancelled
  }

  function Of(s: State, source: Source): Worker {
    if source == Server then s.server else s.lease
  }

  function With(s: State, source: Source, w: Worker): State {
    if source == Server then s.(server := w) else s.(lease := w)
  }

  function Awaiting(source: Source): Pc {
    if source == Server then AwaitingServer else AwaitingLease
  }

  /** Where Run goes once it is through with the server, and with the lease. */
  function After(s: State, source: Source): Pc {
    if source == Server && !s.lease.stopped && s.managed then AwaitingLease
    else if s.managed then Deregistering
    else Done
  }

  /** What `Run` does: `None` where the label cannot happen. */
  function Advance(s: State, l: Label): Option<Pc> {
    match l
    case Refused => At(s, Entry, Done)
    case Accepted => At(s, Entry, Making)
    case ServerMade(ok) => At(s, Making, if !ok then Done else if s.managed then Registering else Launching)
    case Registered(err) => At(s, Registering, if err.Some? then Done else Launching)
    case ServerStarted => At(s, Launching, if s.managed then LaunchingLease else Selecting)
    case LeaseStarted => At(s, LaunchingLease, Selecting)
    case SawEnd => if Live(s) then None else At(s, Selecting, Cancelling)
    case Took(source, err) =>
      if Of(s, source).slot != Some(err) then None
      else At(s, Selecting, if err.Some? then SecondRead(source, err.value) else FirstRead(source))
    case ReadNil(source, live) =>
      if live != Live(s) then None
      else At(s, FirstRead(source), if live then SecondRead(source, StoppedEarly(source)) else Cancelling)
    case Judged(source, failure, live) =>
      if live != Live(s) then None else At(s, SecondRead(source, failure), Cancelling)
    case Cancelled => At(s, Cancelling, ShuttingDown)
    case ShutDown(_) => At(s, ShuttingDown, if !s.server.stopped then AwaitingServer else After(s, Server))
    case Stopped(source, err) =>
      if Of(s, source).slot != Some(err) then None else At(s, Awaiting(source), After(s, source))
    case Overdue(source) => if !s.deadline then None else At(s, Awaiting(source), After(s, source))
    case Deregistered(_) => At(s, Deregistering, Done)
    case _ => None
  }

  function At(s: State, here: Pc, there: Pc): Option<Pc> {
    if s.pc == here then Some(there) else None
  }

  /** What such a step changes besides `Run`'s place. */
  function Effect(s: State, l: Label): State {
    match l
    case ServerStarted => s.(server := s.server.(routine := Running))
    case LeaseStarted => s.(lease := s.lease.(routine := Running))
    case Took(source, _) => With(s, source, Of(s, source).(slot := None, stopped := true))
    case Cancelled => s.(cancelled := true)
    case Stopped(source, _) => With(s, source, Of(s, source).(slot := None))
    case _ => s
  }

  /** What the other goroutines, the caller and the timer do. */
  function World(s: State, l: Label): Option<State> {
    match l
    case Ended => if s.ended then None else Some(s.(ended := true))
    case DeadlinePassed => if !s.cancelled || s.deadline then None else Some(s.(deadline := true))
    case CallReturned(source, err) =>
      if Of(s, source).routine != Running then None
      else Some(With(s, source, Of(s, source).(routine := Returned(Filtered(source, err)))))
    case Sent(source) =>
      var w := Of(s, source);
      if !w.routine.Returned? || w.slot.Some? then None
      else Some(With(s, source, w.(routine := Finished, slot := Some(w.routine.err))))
    case _ => None
  }

  /** The server's goroutine takes a closed server for a clean stop. */
  function Filtered(source: Source, err: Option<Error>): Option<Error> {
    if source == Server && err.Some? && Is(err.value, SERVER_CLOSED) then None else err
  }

  predicate IsWorldly(l: Label) {
    l.Ended? || l.DeadlinePassed? || l.CallReturned? || l.Sent?
  }

  function Next(s: State, l: Label): Option<State> {
    if IsWorldly(l) then World(s, l)
    else match Advance(s, l)
      case None => None
      case Some(pc) => Some(Effect(s, l).(pc := pc))
  }

  /** The state after a sequence of labels, if they can happen in that order. */
  function Run(managed: bool, labels: seq<Label>): Option<State> {
    Play(Next, Start(managed), labels)
  }

  function Play(step: (State, Label) -> Option<State>, start: State, labels: seq<Label>): Option<State> {
    if labels == [] then Some(start)
    else
      var before := Play(step, start, labels[..|labels| - 1]);
      if before.None? then None else step(before.value, labels[|labels| - 1])
  }

  // ----- induction over runs -----

  type Claim = (State, seq<Label>) -> bool

  /** What holds at the start and survives every step holds after every run. */
  lemma {:induction false} Always(step: (State, Label) -> Option<State>, start: State, labels: seq<Label>, claim: Claim)
    requires claim(start, [])
    requires forall s, past, l :: claim(s, past) && step(s, l).Some? ==> claim(step(s, l).value, past + [l])
    requires Play(step, start, labels).Some?
    ensures claim(Play(step, start, labels).value, labels)
  {
    if labels != [] {
      var n := |labels| - 1;
      Always(step, start, labels[..n], claim);
      assert labels[..n] + [labels[n]] == labels;
    }
  }

  lemma {:induction false} Prefix(step: (State, Label) -> Option<State>, start: State, labels: seq<Label>, n: nat)
    requires Play(step, start, labels).Some? && n < |labels|
    ensures Play(step, start, labels[..n]).Some?
    ensures Play(step, start, labels[..n + 1]).Some?
    ensures step(Play(step, start, labels[..n]).value, labels[n]) == Play(step, start, labels[..n + 1])
  {
    var m := |labels| - 1;
    if n < m {
      assert labels[..m][..n] == labels[..n] && labels[..m][..n + 1] == labels[..n + 1];
      Prefix(step, start, labels[..m], n);
    } else {
      assert labels[..n + 1] == labels;
      assert labels[..n + 1][..n] == labels[..n];
    }
  }

  // ----- the error it returns -----

  /** `errors.Join(runErr, Wrap(stage, message, err))`, where `err` is not nil. */
  function Joining(runErr: Option<Error>, stage: string, message: string, err: Option<Error>): Option<Error> {
    if err.None? then runErr else Join(runErr, Wrap(stage, message, err))
  }

  /** The message of the failure that a label reveals. */
  type Texts = Label -> string

  function Text(l: Label): string {
    match l
    case Refused => "run host"
    case ServerMade(_) => "create server"
    case Registered(_) => "register runtime"
    case Judged(source, _, _) => if source == Server then "serve runtime" else "registration lease"
    case ShutDown(_) => "shutdown server"
    case Stopped(source, _) => if source == Server then "stop server" else "stop registration lease"
    case Overdue(source) => if source == Server then "stop server" else "stop registration lease"
    case _ => "deregister runtime"
  }

  /** What a label makes of the variable `runErr`; an early return is the last
      thing that is assigned. */
  function Noted(runErr: Option<Error>, l: Label, text: Texts): Option<Error> {
    match l
    case Refused => Wrap(CONFIG, text(l), Some(NO_HOST))
    case ServerMade(ok) => if ok then runErr else Wrap(CONFIG, text(l), Some(NO_SERVER))
    case Registered(err) => if err.None? then runErr else Wrap(REGISTRATION, text(l), err)
    case Judged(source, failure, live) =>
      if !live then runErr
      else if source == Server then Wrap(SERVE, text(l), Some(failure))
      else Wrap(REGISTRATION, text(l), Some(failure))
    case ShutDown(err) => Joining(runErr, SHUTDOWN, text(l), err)
    case Stopped(source, err) =>
      if source == Server then Joining(runErr, SHUTDOWN, text(l), err)
      else if err.Some? && Is(err.value, CONTEXT_CANCELED) then runErr
      else Joining(runErr, REGISTRATION, text(l), err)
    case Overdue(_) => Joining(runErr, SHUTDOWN, text(l), Some(DEADLINE_EXCEEDED))
    case Deregistered(err) => Joining(runErr, SHUTDOWN, text(l), err)
    case _ => runErr
  }

  /** The value of `runErr` after these labels. */
  function RunErr(labels: seq<Label>, text: Texts): Option<Error> {
    if labels == [] then None else Noted(RunErr(labels[..|labels| - 1], text), labels[|labels| - 1], text)
  }

  // ----- every run ends -----

  function PcRank(pc: Pc): nat {
    match pc
    case Entry => 13
    case Making => 12
    case Registering => 11
    case Launching => 10
    case LaunchingLease => 9
    case Selecting => 8
    case FirstRead(_) => 7
    case SecondRead(_, _) => 6
    case Cancelling => 5
    case ShuttingDown => 4
    case AwaitingServer => 3
    case AwaitingLease => 2
    case Deregistering => 1
    case Done => 0
  }

  function RoutineRank(r: Routine): nat {
    match r
    case Idle => 3
    case Running => 2
    case Returned(_) => 1
    case Finished => 0
  }

  /** What the rest of the world can still do. */
  function Waits(s: State): nat {
    RoutineRank(s.server.routine) + RoutineRank(s.lease.routine)
    + (if s.ended then 0 else 1) + (if s.deadline then 0 else 1)
  }

  function Rank(s: State): nat {
    PcRank(s.pc) + Waits(s)
  }

  // ----- what every step keeps -----

  /** A slot is filled only by a finished goroutine whose message Run still wants
      or has given up; while it wants it, the message of a finished one is there. */
  predicate WorkerCalm(w: Worker, launched: bool, wanted: bool) {
    && (launched <==> !w.routine.Idle?)
    && (w.slot.Some? ==> w.routine.Finished?)
    && (w.routine.Finished? && wanted && !w.stopped ==> w.slot.Some?)
    && (w.stopped && launched ==> w.routine.Finished? && w.slot.None?)
  }

  /** Whether goroutines have been launched: not before Run gets there, nor when it gave up earlier. */
  predicate Launched(s: State, source: Source) {
    if s.pc.Done? then s.cancelled && (source == Server || s.managed)
    else if source == Server then PcRank(s.pc) <= 9
    else PcRank(s.pc) <= 8 && s.managed
  }

  predicate Calm(s: State) {
    var rank := PcRank(s.pc);
    && WorkerCalm(s.server, Launched(s, Server), rank >= 3)
    && WorkerCalm(s.lease, Launched(s, Lease), rank >= 2)
    && (rank >= 8 ==> !s.server.stopped && (s.lease.stopped <==> !s.managed))
    && (s.pc.Registering? || s.pc.LaunchingLease? || s.pc.AwaitingLease? || s.pc.Deregistering? ==> s.managed)
    && (s.pc.AwaitingServer? ==> !s.server.stopped)
    && (s.pc.AwaitingLease? ==> !s.lease.stopped)
    && (!s.pc.Done? ==> (s.cancelled <==> rank <= 4))
  }

  lemma WorldKeeps(s: State, l: Label)
    requires Calm(s) && World(s, l).Some?
    ensures Calm(World(s, l).value) && World(s, l).value.managed == s.managed
  {
    match l
    case CallReturned(source, _) => if source == Server {}
    case Sent(source) => if source == Server {}
    case _ =>
  }

  /** A step of Run, up to where it stops selecting. */
  lemma EarlyKeeps(s: State, l: Label)
    requires Calm(s) && Advance(s, l).Some? && PcRank(s.pc) >= 8
    ensures var t := Effect(s, l).(pc := Advance(s, l).value);
            Calm(t) && t.managed == s.managed
  {
    match l
    case Took(source, _) => if source == Server {}
    case _ =>
  }

  lemma LateKeeps(s: State, l: Label)
    requires Calm(s) && Advance(s, l).Some? && PcRank(s.pc) < 8 && !l.Stopped? && !l.Overdue?
    ensures var t := Effect(s, l).(pc := Advance(s, l).value);
            Calm(t) && t.managed == s.managed
  {
    match s.pc
    case FirstRead(_) =>
    case SecondRead(_, _) =>
    case Cancelling =>
    case ShuttingDown =>
    case Deregistering =>
  }

  /** The two waits of the shutdown. */
  lemma WaitKeeps(s: State, l: Label)
    requires Calm(s) && Advance(s, l).Some? && (l.Stopped? || l.Overdue?)
    ensures var t := Effect(s, l).(pc := Advance(s, l).value);
            Calm(t) && t.managed == s.managed
  {
    if l.source == Server {}
  }

  lemma PcFalls(s: State, l: Label)
    requires Advance(s, l).Some?
    ensures PcRank(Advance(s, l).value) < PcRank(s.pc)
  {
  }

  lemma EffectWaits(s: State, l: Label)
    requires Calm(s) && Advance(s, l).Some?
    ensures Waits(Effect(s, l)) <= Waits(s)
  {
  }

  lemma WorldFalls(s: State, l: Label)
    requires World(s, l).Some?
    ensures Waits(World(s, l).value) < Waits(s) && World(s, l).value.pc == s.pc
  {
  }

  /** Every step keeps `Calm` and uses up one of the steps that are left. */
  predicate Sound(s: State, past: seq<Label>, managed: bool) {
    Calm(s) && s.managed == managed && |past| + Rank(s) <= 21
  }

  lemma NextKeeps(s: State, l: Label, past: seq<Label>, managed: bool)
    requires Sound(s, past, managed) && Next(s, l).Some?
    ensures Sound(Next(s, l).value, past + [l], managed)
  {
    if IsWorldly(l) {
      WorldFalls(s, l);
      WorldKeeps(s, l);
    } else {
      PcFalls(s, l);
      EffectWaits(s, l);
      if PcRank(s.pc) >= 8 {
        EarlyKeeps(s, l);
      } else if l.Stopped? || l.Overdue? {
        WaitKeeps(s, l);
      } else {
        LateKeeps(s, l);
      }
    }
  }

  lemma RunIsSound(managed: bool, labels: seq<Label>)
    requires Run(managed, labels).Some?
    ensures Sound(Run(managed, labels).value, labels, managed)
  {
    var claim: Claim := (s, past) => Sound(s, past, managed);
    forall s, past, l | claim(s, past) && Next(s, l).Some? ensures claim(Next(s, l).value, past + [l]) {
      NextKeeps(s, l, past, managed);
    }
    Always(Next, Start(managed), labels, claim);
  }
}
