/** What every run of the host guarantees, over all interleavings of `Run`, the
    server, the lease, the caller and the shutdown timer. */
module HostRuns {
  import opened Prelude
  import opened Host

  /** `Always`, on top of what every step is already known to keep. */
  lemma AlwaysToo(managed: bool, labels: seq<Label>, claim: Claim)
    requires claim(Start(managed), [])
    requires forall s, past, l :: Sound(s, past, managed) && claim(s, past) && Next(s, l).Some? ==>
               claim(Next(s, l).value, past + [l])
    requires Run(managed, labels).Some?
    ensures Sound(Run(managed, labels).value, labels, managed) && claim(Run(managed, labels).value, labels)
  {
    var both: Claim := (s, past) => Sound(s, past, managed) && claim(s, past);
    forall s, past, l | both(s, past) && Next(s, l).Some? ensures both(Next(s, l).value, past + [l]) {
      NextKeeps(s, l, past, managed);
    }
    Always(Next, Start(managed), labels, both);
  }

  // ----- ending and waiting -----

  /** No run has more than 21 steps. */
  lemma RunsEnd(managed: bool, labels: seq<Label>)
    requires Run(managed, labels).Some?
    ensures |labels| <= 21
  {
    RunIsSound(managed, labels);
  }

  predicate StandsStill(s: State) {
    || (s.pc.Selecting? && Live(s) && s.server.slot.None? && s.lease.slot.None?)
    || (s.pc.AwaitingServer? && s.server.slot.None? && !s.deadline)
    || (s.pc.AwaitingLease? && s.lease.slot.None? && !s.deadline)
  }

  /** A step `Run` can take where it is. */
  function Move(s: State): Label {
    match s.pc
    case Entry => Accepted
    case Making => ServerMade(true)
    case Registering => Registered(None)
    case Launching => ServerStarted
    case LaunchingLease => LeaseStarted
    case Selecting =>
      if s.server.slot.Some? then Took(Server, s.server.slot.value)
      else if s.lease.slot.Some? then Took(Lease, s.lease.slot.value)
      else SawEnd
    case FirstRead(source) => ReadNil(source, Live(s))
    case SecondRead(source, err) => Judged(source, err, Live(s))
    case Cancelling => Cancelled
    case ShuttingDown => ShutDown(None)
    case AwaitingServer => if s.server.slot.Some? then Stopped(Server, s.server.slot.value) else Overdue(Server)
    case AwaitingLease => if s.lease.slot.Some? then Stopped(Lease, s.lease.slot.value) else Overdue(Lease)
    case _ => Deregistered(None)
  }

  lemma Moves(s: State)
    requires !s.pc.Done? && !StandsStill(s)
    ensures Advance(s, Move(s)).Some?
  {
    match s.pc
    case Selecting =>
    case AwaitingServer =>
    case AwaitingLease =>
    case _ =>
  }

  lemma Blocked(s: State, l: Label)
    requires StandsStill(s)
    ensures Advance(s, l).None?
  {
    match l
    case Stopped(source, _) => if source == Server {}
    case Overdue(source) => if source == Server {}
    case Took(source, _) => if source == Server {}
    case _ =>
  }

  /** `Run` stands still only in its three selects, only while nothing they watch
      has happened; and what it then waits for has not been sent yet, so no
      message is ever missed. */
  lemma StandsStillOnlyInSelects(managed: bool, labels: seq<Label>)
    requires Run(managed, labels).Some? && !Run(managed, labels).value.pc.Done?
    ensures var s := Run(managed, labels).value;
            && (StandsStill(s) <==> forall l :: Advance(s, l).None?)
            && (StandsStill(s) && !s.pc.AwaitingLease? ==> s.server.routine.Running? || s.server.routine.Returned?)
            && (StandsStill(s) && !s.pc.AwaitingServer? && managed ==>
                  s.lease.routine.Running? || s.lease.routine.Returned?)
  {
    RunIsSound(managed, labels);
    Standing(Run(managed, labels).value);
  }

  lemma Standing(s: State)
    requires Calm(s) && !s.pc.Done?
    ensures StandsStill(s) <==> forall l :: Advance(s, l).None?
    ensures StandsStill(s) && !s.pc.AwaitingLease? ==> s.server.routine.Running? || s.server.routine.Returned?
    ensures StandsStill(s) && !s.pc.AwaitingServer? && s.managed ==>
              s.lease.routine.Running? || s.lease.routine.Returned?
  {
    if StandsStill(s) {
      forall l ensures Advance(s, l).None? {
        Blocked(s, l);
      }
    } else {
      Moves(s);
    }
  }

  /** A run that cannot go on in any way is over. */
  lemma StuckIsDone(managed: bool, labels: seq<Label>)
    requires Run(managed, labels).Some?
    requires forall l :: Next(Run(managed, labels).value, l).None?
    ensures Run(managed, labels).value.pc.Done?
  {
    var s := Run(managed, labels).value;
    RunIsSound(managed, labels);
    if !s.pc.Done? {
      NudgeGoesOn(s);
    }
  }

  /** A step that gets `Run` closer to its end without the server or the lease. */
  function Nudge(s: State): Label {
    if !StandsStill(s) then Move(s) else if s.pc.Selecting? then Ended else DeadlinePassed
  }

  predicate NeedsNoWorker(l: Label) {
    !l.CallReturned? && !l.Sent?
  }

  lemma NudgeGoesOn(s: State)
    requires Calm(s) && !s.pc.Done?
    ensures Next(s, Nudge(s)).Some? && NeedsNoWorker(Nudge(s))
  {
    if !StandsStill(s) {
      Moves(s);
    }
  }

  /** Wherever a run stands, it can be brought to its end though neither the server
      nor the lease ever returns or sends: by `Run`'s own steps, the context ending
      and the shutdown timeout. */
  lemma {:induction false} CanFinish(managed: bool, labels: seq<Label>) returns (more: seq<Label>)
    requires Run(managed, labels).Some?
    ensures Run(managed, labels + more).Some? && Run(managed, labels + more).value.pc.Done?
    ensures forall l :: l in more ==> NeedsNoWorker(l)
    decreases 21 - |labels|
  {
    RunIsSound(managed, labels);
    var s := Run(managed, labels).value;
    more := [];
    if s.pc.Done? {
      assert labels + more == labels;
    } else {
      NudgeGoesOn(s);
      var longer := labels + [Nudge(s)];
      assert longer[..|labels|] == labels;
      RunIsSound(managed, longer);
      var rest := CanFinish(managed, longer);
      more := [Nudge(s)] + rest;
      assert longer + rest == labels + more;
    }
  }

  /** Every send so far was the only one, and left its goroutine finished. */
  predicate SentOnce(s: State, past: seq<Label>, source: Source) {
    && (forall i :: 0 <= i < |past| && past[i] == Sent(source) ==> Of(s, source).routine.Finished?)
    && (forall i, j :: 0 <= i < j < |past| ==> !(past[i] == Sent(source) && past[j] == Sent(source)))
  }

  lemma SentOnceStep(s: State, l: Label, past: seq<Label>, source: Source)
    requires Calm(s) && SentOnce(s, past, source) && Next(s, l).Some?
    ensures SentOnce(Next(s, l).value, past + [l], source)
  {
    var t := Next(s, l).value;
    if IsWorldly(l) {
      SendFinishes(s, l, source);
    } else if Of(s, source).routine.Finished? {
      StaysFinished(s, l, source);
    }
    OneSend(Of(s, source), Of(t, source), past, l, source);
  }

  lemma OneSend(w: Worker, x: Worker, past: seq<Label>, l: Label, source: Source)
    requires forall i :: 0 <= i < |past| && past[i] == Sent(source) ==> w.routine.Finished?
    requires forall i, j :: 0 <= i < j < |past| ==> !(past[i] == Sent(source) && past[j] == Sent(source))
    requires w.routine.Finished? ==> x.routine.Finished? && l != Sent(source)
    requires l == Sent(source) ==> x.routine.Finished?
    ensures forall i :: 0 <= i < |past + [l]| && (past + [l])[i] == Sent(source) ==> x.routine.Finished?
    ensures forall i, j :: 0 <= i < j < |past + [l]| ==>
              !((past + [l])[i] == Sent(source) && (past + [l])[j] == Sent(source))
  {
  }

  lemma SendFinishes(s: State, l: Label, source: Source)
    requires World(s, l).Some?
    ensures var t := World(s, l).value;
            && (Of(s, source).routine.Finished? ==> Of(t, source).routine.Finished? && l != Sent(source))
            && (l == Sent(source) ==> Of(t, source).routine.Finished?)
  {
  }

  lemma StaysFinished(s: State, l: Label, source: Source)
    requires Calm(s) && Advance(s, l).Some? && Of(s, source).routine.Finished?
    ensures Of(Effect(s, l), source).routine.Finished?
  {
  }

  lemma Sendable(s: State, source: Source)
    requires Calm(s)
    ensures Of(s, source).routine.Returned? ==> Next(s, Sent(source)).Some?
  {
  }

  /** A goroutine that has a result can always send it, even when `Run` has
      returned, and it sends once. */
  lemma SendsNeverBlock(managed: bool, labels: seq<Label>, source: Source)
    requires Run(managed, labels).Some?
    ensures var s := Run(managed, labels).value;
            Of(s, source).routine.Returned? ==> Next(s, Sent(source)).Some?
    ensures forall i, j :: 0 <= i < j < |labels| ==> !(labels[i] == Sent(source) && labels[j] == Sent(source))
  {
    var claim: Claim := (s, past) => SentOnce(s, past, source);
    forall s, past, l | Sound(s, past, managed) && claim(s, past) && Next(s, l).Some?
      ensures claim(Next(s, l).value, past + [l])
    {
      SentOnceStep(s, l, past, source);
    }
    AlwaysToo(managed, labels, claim);
    Sendable(Run(managed, labels).value, source);
  }

  // ----- the calls it makes -----

  datatype Call = RegisterCall(ok: bool) | ShutdownCall | DeregisterCall

  function CallOf(l: Label): seq<Call> {
    match l
    case Registered(err) => [RegisterCall(err.None?)]
    case ShutDown(_) => [ShutdownCall]
    case Deregistered(_) => [DeregisterCall]
    case _ => []
  }

  /** The calls that have returned, in order. */
  function Calls(labels: seq<Label>): seq<Call> {
    if labels == [] then [] else Calls(labels[..|labels| - 1]) + CallOf(labels[|labels| - 1])
  }

  function Lifecycle(managed: bool): seq<Call> {
    if managed then [RegisterCall(true), ShutdownCall, DeregisterCall] else [ShutdownCall]
  }

  predicate CallsAt(s: State, calls: seq<Call>) {
    var rank := PcRank(s.pc);
    if rank >= 11 then calls == []
    else if rank >= 4 then calls == if s.managed then [RegisterCall(true)] else []
    else if rank >= 1 then calls == if s.managed then [RegisterCall(true), ShutdownCall] else [ShutdownCall]
    else if s.cancelled then calls == Lifecycle(s.managed)
    else calls == [] || (s.managed && calls == [RegisterCall(false)])
  }

  lemma CallsStep(s: State, l: Label, calls: seq<Call>)
    requires Calm(s) && CallsAt(s, calls) && Advance(s, l).Some? && CallOf(l) != []
    ensures CallsAt(Effect(s, l).(pc := Advance(s, l).value), calls + CallOf(l))
  {
    match l
    case Registered(_) =>
    case ShutDown(_) =>
    case Deregistered(_) =>
  }

  lemma SilentStep(s: State, l: Label, calls: seq<Call>)
    requires Calm(s) && CallsAt(s, calls) && Next(s, l).Some? && CallOf(l) == []
    ensures CallsAt(Next(s, l).value, calls)
  {
    if IsWorldly(l) {
    } else if PcRank(s.pc) >= 8 {
      SilentEarly(s, l, calls);
    } else if l.Stopped? || l.Overdue? {
      SilentWait(s, l, calls);
    } else {
      SilentLate(s, l, calls);
    }
  }

  lemma SilentEarly(s: State, l: Label, calls: seq<Call>)
    requires Calm(s) && CallsAt(s, calls) && Advance(s, l).Some? && CallOf(l) == [] && PcRank(s.pc) >= 8
    ensures CallsAt(Effect(s, l).(pc := Advance(s, l).value), calls)
  {
  }

  lemma SilentLate(s: State, l: Label, calls: seq<Call>)
    requires Calm(s) && CallsAt(s, calls) && Advance(s, l).Some? && PcRank(s.pc) < 8
    requires l.ReadNil? || l.Judged? || l.Cancelled?
    ensures CallsAt(Effect(s, l).(pc := Advance(s, l).value), calls)
  {
  }

  lemma SilentWait(s: State, l: Label, calls: seq<Call>)
    requires Calm(s) && CallsAt(s, calls) && Advance(s, l).Some? && (l.Stopped? || l.Overdue?)
    ensures CallsAt(Effect(s, l).(pc := Advance(s, l).value), calls)
  {
    if l.source == Server {}
  }

  lemma CallsNext(s: State, l: Label, past: seq<Label>)
    requires Calm(s) && CallsAt(s, Calls(past)) && Next(s, l).Some?
    ensures CallsAt(Next(s, l).value, Calls(past + [l]))
  {
    assert (past + [l])[..|past|] == past;
    if CallOf(l) == [] {
      SilentStep(s, l, Calls(past));
      assert Calls(past + [l]) == Calls(past);
    } else {
      CallsStep(s, l, Calls(past));
    }
  }

  lemma RunCalls(managed: bool, labels: seq<Label>)
    requires Run(managed, labels).Some?
    ensures Sound(Run(managed, labels).value, labels, managed) && CallsAt(Run(managed, labels).value, Calls(labels))
  {
    var claim: Claim := (s, past) => CallsAt(s, Calls(past));
    assert Calls([]) == [] && claim(Start(managed), []);
    forall s, past, l | Sound(s, past, managed) && claim(s, past) && Next(s, l).Some?
      ensures claim(Next(s, l).value, past + [l])
    {
      CallsNext(s, l, past);
    }
    AlwaysToo(managed, labels, claim);
  }

  /** In every run the host deregisters only what it registered, once, after its
      one shutdown call has returned; and by the time `Run` returns, whatever was
      registered has been deregistered and a started server has been shut down. */
  lemma DeregisterProtocol(managed: bool, labels: seq<Label>)
    requires Run(managed, labels).Some?
    ensures Calls(labels) <= Lifecycle(managed) || Calls(labels) == [RegisterCall(false)]
    ensures Run(managed, labels).value.pc.Done? && RegisterCall(true) in Calls(labels) ==>
              Calls(labels) == [RegisterCall(true), ShutdownCall, DeregisterCall]
    ensures Run(managed, labels).value.pc.Done? && !Run(managed, labels).value.server.routine.Idle? ==>
              Calls(labels) == Lifecycle(managed)
  {
    RunCalls(managed, labels);
    Protocol(Run(managed, labels).value, Calls(labels));
  }

  lemma Protocol(s: State, calls: seq<Call>)
    requires Calm(s) && CallsAt(s, calls)
    ensures calls <= Lifecycle(s.managed) || calls == [RegisterCall(false)]
    ensures s.pc.Done? && RegisterCall(true) in calls ==> calls == [RegisterCall(true), ShutdownCall, DeregisterCall]
    ensures s.pc.Done? && !s.server.routine.Idle? ==> calls == Lifecycle(s.managed)
  {
  }
}
