/** What becomes of the result of the server and of the lease in every run of the
    host: heard or given up, and exactly when a failure is among those returned. */
module HostMessages {
  import opened Prelude
  import opened Errors
  import opened HostErrors
  import opened Host
  import opened HostRuns
  import opened HostOutcome
  import opened HostFailures

  /** `Run` is done with a goroutine: it took its message, or gave it up. */
  predicate Settles(l: Label, source: Source) {
    Hears(l, source) || l == Overdue(source)
  }

  predicate IsReturn(l: Label, source: Source) {
    l.CallReturned? && l.source == source
  }

  function StartOf(source: Source): Label {
    if source == Server then ServerStarted else LeaseStarted
  }

  // ----- one goroutine at a time -----

  /** The message that a goroutine sends of what its call returned. */
  function MessageOf(source: Source, err: Option<Error>): Option<Error> {
    if err.Some? && IsClosing(source, err.value) then None else err
  }

  /** What a step does to the goroutine of `source` and its slot. */
  predicate WorkerStep(w: Worker, l: Label, source: Source, x: Worker) {
    if IsReturn(l, source) then
      w.routine == Running && x.routine == Returned(MessageOf(source, l.err)) && x.slot == w.slot
    else if l == Sent(source) then
      w.routine.Returned? && w.slot.None? && x.routine == Finished && x.slot == Some(w.routine.err)
    else if Hears(l, source) then
      w.slot == Some(l.err) && x.slot.None? && x.routine == w.routine
    else if l == StartOf(source) then
      w.routine == Idle && x.routine == Running && x.slot == w.slot
    else
      x.routine == w.routine && x.slot == w.slot
  }

  lemma WorldMovesWorker(s: State, l: Label, source: Source)
    requires World(s, l).Some?
    ensures WorkerStep(Of(s, source), l, source, Of(World(s, l).value, source))
  {
  }

  lemma RunMovesWorker(s: State, l: Label, source: Source)
    requires Calm(s) && Advance(s, l).Some?
    ensures WorkerStep(Of(s, source), l, source, Of(Effect(s, l), source))
  {
    match l
    case Took(from, _) => if from == Server {}
    case Stopped(from, _) => if from == Server {}
    case _ =>
  }

  lemma NextMovesWorker(s: State, l: Label, source: Source)
    requires Calm(s) && Next(s, l).Some?
    ensures WorkerStep(Of(s, source), l, source, Of(Next(s, l).value, source))
  {
    if IsWorldly(l) {
      WorldMovesWorker(s, l, source);
    } else {
      RunMovesWorker(s, l, source);
    }
  }

  predicate HasReturned(past: seq<Label>, source: Source) {
    exists i :: 0 <= i < |past| && IsReturn(past[i], source)
  }

  /** The message travels unchanged: what the call's return makes of it is what is
      in the slot and what is heard. */
  predicate Flows(w: Worker, past: seq<Label>, source: Source) {
    && (StartOf(source) in past <==> w.routine != Idle)
    && (w.routine.Returned? || w.routine == Finished ==> HasReturned(past, source))
    && (w.slot.Some? ==> w.routine == Finished)
    && (forall i :: 0 <= i < |past| && IsReturn(past[i], source) ==>
          w.routine == Returned(MessageOf(source, past[i].err)) ||
          (w.routine == Finished && (w.slot.None? || w.slot == Some(MessageOf(source, past[i].err)))))
    && (forall j :: 0 <= j < |past| && Hears(past[j], source) ==> w.routine == Finished && w.slot.None?)
    && (forall i, j :: 0 <= i < |past| && 0 <= j < |past| && IsReturn(past[i], source) && Hears(past[j], source) ==>
          past[j].err == MessageOf(source, past[i].err))
  }

  lemma FlowsOn(w: Worker, l: Label, source: Source, x: Worker, past: seq<Label>)
    requires WorkerStep(w, l, source, x) && Flows(w, past, source)
    ensures Flows(x, past + [l], source)
  {
    var all := past + [l];
    assert all[|past|] == l && forall i :: 0 <= i < |past| ==> all[i] == past[i];
    assert StartOf(source) in all <==> StartOf(source) in past || l == StartOf(source);
  }

  lemma FlowsAtStart(managed: bool, source: Source)
    ensures Flows(Of(Start(managed), source), [], source)
  {
    if source == Server {}
  }

  lemma RunFlows(managed: bool, labels: seq<Label>, source: Source)
    requires Run(managed, labels).Some?
    ensures Sound(Run(managed, labels).value, labels, managed)
    ensures Flows(Of(Run(managed, labels).value, source), labels, source)
  {
    var claim: Claim := (s, past) => Flows(Of(s, source), past, source);
    FlowsAtStart(managed, source);
    forall s, past, l | Sound(s, past, managed) && claim(s, past) && Next(s, l).Some?
      ensures claim(Next(s, l).value, past + [l])
    {
      NextMovesWorker(s, l, source);
      FlowsOn(Of(s, source), l, source, Of(Next(s, l).value, source), past);
    }
    AlwaysToo(managed, labels, claim);
  }

  /** What is heard of a goroutine is what its one call returned, and nil if that
      was the server's word that it has been closed. */
  lemma HeardIsReturned(managed: bool, labels: seq<Label>, source: Source, j: nat)
    requires Run(managed, labels).Some? && j < |labels| && Hears(labels[j], source)
    ensures exists err :: CallReturned(source, err) in labels
    ensures forall err :: CallReturned(source, err) in labels ==>
              labels[j].err == if source == Server && err.Some? && Is(err.value, SERVER_CLOSED) then None else err
  {
    RunFlows(managed, labels, source);
    var i :| 0 <= i < |labels| && IsReturn(labels[i], source);
    assert CallReturned(source, labels[i].err) in labels;
    forall err | CallReturned(source, err) in labels ensures labels[j].err == MessageOf(source, err) {
      var k :| 0 <= k < |labels| && labels[k] == CallReturned(source, err);
      assert IsReturn(labels[k], source);
    }
  }

  predicate DeadlineNoted(s: State, past: seq<Label>) {
    s.deadline <==> DeadlinePassed in past
  }

  lemma DeadlineStep(s: State, l: Label, past: seq<Label>)
    requires Next(s, l).Some? && DeadlineNoted(s, past)
    ensures DeadlineNoted(Next(s, l).value, past + [l])
  {
    if IsWorldly(l) {
      DeadlineWorld(s, l);
    } else {
      DeadlineAdvance(s, l);
    }
  }

  lemma DeadlineWorld(s: State, l: Label)
    requires World(s, l).Some?
    ensures World(s, l).value.deadline <==> s.deadline || l.DeadlinePassed?
  {
  }

  lemma DeadlineAdvance(s: State, l: Label)
    requires Advance(s, l).Some?
    ensures Effect(s, l).deadline == s.deadline && !l.DeadlinePassed?
  {
  }

  lemma RunNotesDeadline(managed: bool, labels: seq<Label>)
    requires Run(managed, labels).Some?
    ensures DeadlineNoted(Run(managed, labels).value, labels)
  {
    var claim: Claim := (s, past) => DeadlineNoted(s, past);
    assert claim(Start(managed), []);
    forall s, past, l | Sound(s, past, managed) && claim(s, past) && Next(s, l).Some?
      ensures claim(Next(s, l).value, past + [l])
    {
      DeadlineStep(s, l, past);
    }
    AlwaysToo(managed, labels, claim);
  }

  /** What may happen around `Run` at any point of any run, and nothing else: the
      context ends once, the timeout passes once when `Run` has cancelled, and each
      goroutine's one call returns anything once it has been started. */
  lemma WorldMay(managed: bool, labels: seq<Label>, source: Source, err: Option<Error>)
    requires Run(managed, labels).Some?
    ensures var s := Run(managed, labels).value;
            && (Next(s, Ended).Some? <==> Ended !in labels)
            && (Next(s, DeadlinePassed).Some? <==> Cancelled in labels && DeadlinePassed !in labels)
            && (Next(s, CallReturned(source, err)).Some? <==> StartOf(source) in labels && !HasReturned(labels, source))
  {
    RunEndedOutside(managed, labels);
    RunNotesDeadline(managed, labels);
    RunFlows(managed, labels, source);
  }

  // ----- a cancellation is a normal end -----

  /** What a goroutine may return when the host is told to stop. */
  predicate StopsWell(source: Source, err: Option<Error>) {
    err.None? || IsClosing(source, err.value) || (source == Lease && Is(err.value, CONTEXT_CANCELED))
  }

  predicate Graceful(l: Label) {
    match l
    case CallReturned(source, err) => StopsWell(source, err)
    case ShutDown(err) => err.None?
    case Deregistered(err) => err.None?
    case Overdue(_) => false
    case _ => true
  }

  lemma GracefulIsClean(managed: bool, labels: seq<Label>, j: nat)
    requires Run(managed, labels).Some? && j < |labels|
    requires forall i :: 0 <= i < |labels| ==> Graceful(labels[i])
    ensures Clean(labels[j])
  {
    assert Graceful(labels[j]);
    if labels[j].Stopped? {
      var source := labels[j].source;
      HeardIsReturned(managed, labels, source, j);
      var err :| CallReturned(source, err) in labels;
      var i :| 0 <= i < |labels| && labels[i] == CallReturned(source, err);
      assert Graceful(labels[i]);
    }
  }

  /** A run that is told to stop from outside returns nil when the server stops,
      or says that it has been closed, the lease stops or is cancelled, nothing is
      given up, and shutting down and deregistering succeed. */
  lemma CancellationIsNormal(managed: bool, labels: seq<Label>)
    requires Run(managed, labels).Some? && Run(managed, labels).value.pc.Done? && SawTheEnd(labels)
    requires forall i :: 0 <= i < |labels| ==> Graceful(labels[i])
    ensures RunErr(labels, Text).None?
  {
    forall j | 0 <= j < |labels| ensures Clean(labels[j]) {
      GracefulIsClean(managed, labels, j);
    }
    NilIff(managed, labels);
  }

  /** The ordinary stop of a server: the context ends, and the server's call
      returns that it has been closed. */
  function ClosedRun(e: Error): (labels: seq<Label>)
    ensures |labels| == 10
  {
    [Accepted, ServerMade(true), ServerStarted, Ended, SawEnd, Cancelled, ShutDown(None),
     CallReturned(Server, Some(e)), Sent(Server), Stopped(Server, None)]
  }

  lemma ClosedRunStops(labels: seq<Label>, s: State)
    requires |labels| > 6 && labels[3] == Ended && labels[4] == SawEnd
    requires labels[5] == Cancelled && labels[6] == ShutDown(None)
    requires s == State(Selecting, false, false, false, false, Worker(Running, None, false), Worker(Idle, None, true))
    requires Run(false, labels[..3]) == Some(s)
    ensures Run(false, labels[..7]) == Some(s.(pc := AwaitingServer, ended := true, cancelled := true))
  {
    var s4 := s.(ended := true);
    var s6 := s4.(pc := ShuttingDown, cancelled := true);
    Extend(false, labels, 3, s, s4);
    Extend(false, labels, 4, s4, s4.(pc := Cancelling));
    Extend(false, labels, 5, s4.(pc := Cancelling), s6);
    Extend(false, labels, 6, s6, s6.(pc := AwaitingServer));
  }

  lemma ClosedRunEnds(labels: seq<Label>, e: Error, s: State)
    requires IsClosing(Server, e) && |labels| == 10
    requires labels[7] == CallReturned(Server, Some(e)) && labels[8] == Sent(Server)
    requires labels[9] == Stopped(Server, None)
    requires s == State(AwaitingServer, false, true, true, false,
                        Worker(Running, None, false), Worker(Idle, None, true))
    requires Run(false, labels[..7]) == Some(s)
    ensures Run(false, labels) == Some(s.(pc := Done, server := Worker(Finished, None, false)))
  {
    var s8 := s.(server := Worker(Returned(None), None, false));
    var s9 := s.(server := Worker(Finished, Some(None), false));
    Extend(false, labels, 7, s, s8);
    Extend(false, labels, 8, s8, s9);
    Extend(false, labels, 9, s9, s.(pc := Done, server := Worker(Finished, None, false)));
    assert labels[..10] == labels;
  }

  /** Such a run can happen, and returns nil. */
  lemma ClosedServerIsNormal(e: Error)
    requires IsClosing(Server, e)
    ensures var labels := ClosedRun(e);
            Run(false, labels).Some? && Run(false, labels).value.pc.Done? && RunErr(labels, Text).None?
  {
    var labels := ClosedRun(e);
    ClosedRunHappens(e, labels);
    assert SeesEnd(labels[4]);
    CancellationIsNormal(false, labels);
  }

  lemma ClosedRunHappens(e: Error, labels: seq<Label>)
    requires IsClosing(Server, e) && labels == ClosedRun(e)
    ensures Run(false, labels).Some? && Run(false, labels).value.pc.Done?
  {
    DroppedStart(labels);
    ClosedRunStops(labels, Run(false, labels[..3]).value);
    ClosedRunEnds(labels, e, Run(false, labels[..7]).value);
  }

  // ----- settled once -----

  predicate Settled(s: State, source: Source) {
    (Of(s, source).stopped && Launched(s, source)) || Through(s, source)
  }

  lemma WorldSettles(s: State, l: Label, source: Source)
    requires Calm(s) && World(s, l).Some?
    ensures Settled(World(s, l).value, source) <==> Settled(s, source)
    ensures !Settles(l, source)
  {
    WorldDeadline(s, l, source);
  }

  lemma RunSettles(s: State, l: Label, source: Source)
    requires Calm(s) && Advance(s, l).Some?
    ensures var t := Effect(s, l).(pc := Advance(s, l).value);
            Settled(t, source) <==> Settled(s, source) || Settles(l, source)
    ensures Settles(l, source) ==> !Settled(s, source)
    ensures l == Overdue(source) ==> s.deadline
  {
    PcFalls(s, l);
    StoppedByTaking(s, l, source);
    StoppedStep(s, l, source);
    if Settles(l, source) {
      SettlesFresh(s, l, source);
      SettledNew(s, l, source);
    } else if Settled(s, source) {
      SettledStays(s, l, source);
    } else {
      SettledOnly(s, l, source);
    }
  }

  lemma SettledNew(s: State, l: Label, source: Source)
    requires Calm(s) && Advance(s, l).Some? && Settles(l, source)
    ensures Settled(Effect(s, l).(pc := Advance(s, l).value), source)
  {
    if source == Server {}
  }

  lemma SettledStays(s: State, l: Label, source: Source)
    requires Calm(s) && Advance(s, l).Some? && Settled(s, source)
    ensures Settled(Effect(s, l).(pc := Advance(s, l).value), source)
  {
    PcFalls(s, l);
    StoppedByTaking(s, l, source);
    LaunchStays(s, l, source);
  }

  lemma LaunchStays(s: State, l: Label, source: Source)
    requires Calm(s) && Advance(s, l).Some? && Launched(s, source)
    ensures Launched(Effect(s, l).(pc := Advance(s, l).value), source)
    ensures s.cancelled ==> Effect(s, l).cancelled
    ensures Effect(s, l).managed == s.managed
  {
    PcFalls(s, l);
  }

  lemma SettledOnly(s: State, l: Label, source: Source)
    requires Calm(s) && Advance(s, l).Some? && !Settles(l, source) && !Settled(s, source)
    ensures !Through(Effect(s, l).(pc := Advance(s, l).value), source)
  {
    if source == Server {}
  }

  lemma SettlesFresh(s: State, l: Label, source: Source)
    requires Calm(s) && Advance(s, l).Some? && Settles(l, source)
    ensures !Settled(s, source)
    ensures l == Overdue(source) ==> s.deadline
  {
    if source == Server {}
  }

  predicate HasSettled(past: seq<Label>, source: Source) {
    exists i :: 0 <= i < |past| && Settles(past[i], source)
  }

  predicate OverdueInTime(past: seq<Label>, source: Source) {
    forall i :: 0 <= i < |past| && past[i] == Overdue(source) ==> DeadlinePassed in past[..i]
  }

  predicate SettledOnce(s: State, past: seq<Label>, source: Source) {
    && HeardAt(s, past, source) && OverdueInTime(past, source)
    && (Settled(s, source) <==> HasSettled(past, source))
    && (forall i, j :: 0 <= i < j < |past| ==> !(Settles(past[i], source) && Settles(past[j], source)))
  }

  lemma OverdueOneMore(past: seq<Label>, l: Label, source: Source)
    requires OverdueInTime(past, source) && (l == Overdue(source) ==> DeadlinePassed in past)
    ensures OverdueInTime(past + [l], source)
  {
    var all := past + [l];
    forall i | 0 <= i < |all| && all[i] == Overdue(source) ensures DeadlinePassed in all[..i] {
      assert all[..i] == past[..i];
    }
  }

  lemma SettledOneMore(past: seq<Label>, l: Label, source: Source)
    requires Settles(l, source) ==> !HasSettled(past, source)
    requires forall i, j :: 0 <= i < j < |past| ==> !(Settles(past[i], source) && Settles(past[j], source))
    ensures HasSettled(past + [l], source) <==> HasSettled(past, source) || Settles(l, source)
    ensures forall i, j :: 0 <= i < j < |past + [l]| ==>
              !(Settles((past + [l])[i], source) && Settles((past + [l])[j], source))
  {
    var all, n := past + [l], |past|;
    assert all[n] == l && forall i :: 0 <= i < n ==> all[i] == past[i];
  }

  lemma NextSettles(s: State, l: Label, source: Source)
    requires Calm(s) && Next(s, l).Some?
    ensures Settled(Next(s, l).value, source) <==> Settled(s, source) || Settles(l, source)
    ensures Settles(l, source) ==> !Settled(s, source)
    ensures l == Overdue(source) ==> s.deadline
  {
    if IsWorldly(l) {
      WorldSettles(s, l, source);
    } else {
      RunSettles(s, l, source);
    }
  }

  lemma SettledOnceStep(s: State, l: Label, past: seq<Label>, source: Source)
    requires Calm(s) && Next(s, l).Some? && SettledOnce(s, past, source)
    ensures SettledOnce(Next(s, l).value, past + [l], source)
  {
    HeardStep(s, l, past, source);
    NextSettles(s, l, source);
    OverdueOneMore(past, l, source);
    SettledOneMore(past, l, source);
  }

  lemma SettledAtStart(managed: bool, source: Source)
    ensures SettledOnce(Start(managed), [], source)
  {
    if source == Server {}
  }

  lemma RunSettledOnce(managed: bool, labels: seq<Label>, source: Source)
    requires Run(managed, labels).Some?
    ensures SettledOnce(Run(managed, labels).value, labels, source)
  {
    var claim: Claim := (s, past) => SettledOnce(s, past, source);
    SettledAtStart(managed, source);
    forall s, past, l | Sound(s, past, managed) && claim(s, past) && Next(s, l).Some?
      ensures claim(Next(s, l).value, past + [l])
    {
      SettledOnceStep(s, l, past, source);
    }
    AlwaysToo(managed, labels, claim);
  }

  lemma LaunchedSettles(s: State, source: Source)
    requires Calm(s) && s.pc.Done? && Of(s, source).routine != Idle
    ensures Settled(s, source)
  {
    if source == Server {}
  }

  /** In every finished run, each goroutine that was started is settled exactly
      once: its message was taken at the first select, or taken while shutting
      down, or given up. */
  lemma SettledExactlyOnce(managed: bool, labels: seq<Label>, source: Source)
    requires Run(managed, labels).Some? && Run(managed, labels).value.pc.Done? && StartOf(source) in labels
    ensures exists i :: 0 <= i < |labels| && Settles(labels[i], source)
                        && forall j :: 0 <= j < |labels| && Settles(labels[j], source) ==> j == i
  {
    RunFlows(managed, labels, source);
    RunSettledOnce(managed, labels, source);
    LaunchedSettles(Run(managed, labels).value, source);
    var i :| 0 <= i < |labels| && Settles(labels[i], source);
    assert forall j :: 0 <= j < |labels| && Settles(labels[j], source) ==> j == i;
  }

  // ----- which failures are reported -----

  /** The staged form of a failure that is heard while shutting down. */
  function StopFailure(source: Source, e: Error, text: Texts): Error {
    Staged(if source == Server then SHUTDOWN else REGISTRATION, text(Stopped(source, Some(e))), e)
  }

  function Timeout(source: Source, text: Texts): Error {
    Staged(SHUTDOWN, text(Overdue(source)), DEADLINE_EXCEEDED)
  }

  /** The failure `e` of `source` is among these, in either form. */
  predicate Reported(source: Source, e: Error, reports: seq<Error>) {
    FirstFailure(source, Some(e), Text) in reports || StopFailure(source, e, Text) in reports
  }

  /** A message was taken at the first select, and the context had been ended from
      outside before the reading that decided on it. */
  predicate DroppedAtFirst(labels: seq<Label>, source: Source) {
    exists k, i ::
      && 0 <= k < i < |labels| && labels[k].Took? && labels[k].source == source
      && DecidesOn(labels[i], source, labels[k].err) && Ended in labels[..i]
  }

  /** Only the message itself, or a timeout that reads like it, is blamed like a
      failure heard while shutting down. */
  lemma OnlyStoppedBlames(l: Label, source: Source, e: Error)
    requires Blame(l, Text) == [StopFailure(source, e, Text)]
    ensures l == Stopped(source, Some(e)) || (source == Server && e == DEADLINE_EXCEEDED && l == Overdue(Server))
  {
    StagesDiffer();
    StageTells(l);
    StopStageTells(l);
    StopTextSizes(l);
    StopTextSizes(Stopped(source, Some(e)));
  }

  lemma StopTextSizes(l: Label)
    ensures l.Stopped? || l.Overdue? ==> |Text(l)| == if l.source == Server then 11 else 23
    ensures l.ShutDown? ==> |Text(l)| == 15
    ensures l.Deregistered? || (l.Judged? && l.source == Lease) ==> |Text(l)| == 18
    ensures l.Registered? ==> |Text(l)| == 16
  {
  }

  lemma StopStageTells(l: Label)
    requires Failure(l).Some?
    ensures Failure(l).value.0 == SHUTDOWN ==>
              l.ShutDown? || l.Deregistered? || l.Overdue? || (l.Stopped? && l.source == Server)
    ensures l.Stopped? ==> l.err == Some(Failure(l).value.1)
    ensures l.Overdue? ==> Failure(l).value.1 == DEADLINE_EXCEEDED
  {
    StagesDiffer();
  }

  // ----- only what was taken is judged -----

  predicate HasTaken(past: seq<Label>, source: Source) {
    exists k :: 0 <= k < |past| && past[k].Took? && past[k].source == source
  }

  predicate HasJudged(past: seq<Label>, source: Source) {
    exists i :: 0 <= i < |past| && past[i].Judged? && past[i].source == source
  }

  predicate LooksAt(pc: Pc, source: Source) {
    (pc.FirstRead? || pc.SecondRead?) && pc.source == source
  }

  predicate JudgesTaken(s: State, past: seq<Label>, source: Source) {
    LooksAt(s.pc, source) || HasJudged(past, source) ==> HasTaken(past, source)
  }

  lemma LooksAtTaken(s: State, l: Label, source: Source)
    requires Next(s, l).Some?
    ensures LooksAt(Next(s, l).value.pc, source) ==> LooksAt(s.pc, source) || (l.Took? && l.source == source)
    ensures l.Judged? && l.source == source ==> LooksAt(s.pc, source)
  {
    if IsWorldly(l) {
      WorldFalls(s, l);
    }
  }

  lemma JudgesTakenStep(s: State, l: Label, past: seq<Label>, source: Source)
    requires Next(s, l).Some? && JudgesTaken(s, past, source)
    ensures JudgesTaken(Next(s, l).value, past + [l], source)
  {
    var all, n := past + [l], |past|;
    assert all[n] == l && forall i :: 0 <= i < n ==> all[i] == past[i];
    LooksAtTaken(s, l, source);
    if k :| 0 <= k < n && past[k].Took? && past[k].source == source {
      assert all[k].Took? && all[k].source == source;
    }
  }

  lemma RunJudgesTaken(managed: bool, labels: seq<Label>, source: Source)
    requires Run(managed, labels).Some?
    ensures HasJudged(labels, source) ==> HasTaken(labels, source)
  {
    var claim: Claim := (s, past) => JudgesTaken(s, past, source);
    assert JudgesTaken(Start(managed), [], source);
    forall s, past, l | Sound(s, past, managed) && claim(s, past) && Next(s, l).Some?
      ensures claim(Next(s, l).value, past + [l])
    {
      JudgesTakenStep(s, l, past, source);
    }
    AlwaysToo(managed, labels, claim);
  }

  // ----- where a reported failure comes from -----

  predicate Blamed(labels: seq<Label>, text: Texts, f: Error) {
    exists j :: 0 <= j < |labels| && Blame(labels[j], text) == [f]
  }

  lemma BlamesAreBlamed(labels: seq<Label>, text: Texts, f: Error)
    ensures f in Blames(labels, text) <==> Blamed(labels, text, f)
  {
    BlamedIff(labels, text, f);
    if j :| 0 <= j < |labels| && f in Blame(labels[j], text) {
      OneBlame(labels[j], text, f);
    }
    if j :| 0 <= j < |labels| && Blame(labels[j], text) == [f] {
      assert f in Blame(labels[j], text);
    }
  }

  lemma ReportedIsBlamed(managed: bool, labels: seq<Label>, f: Error)
    requires Run(managed, labels).Some?
    ensures f in Reports(RunErr(labels, Text)) <==> Blamed(labels, Text, f)
  {
    ErrorIsFailures(managed, labels);
    BlamesAreBlamed(labels, Text, f);
  }

  lemma FirstFailureWasTaken(managed: bool, labels: seq<Label>, source: Source, err: Option<Error>)
    requires Run(managed, labels).Some? && Blamed(labels, Text, FirstFailure(source, err, Text))
    ensures HasTaken(labels, source)
  {
    var j :| 0 <= j < |labels| && Blame(labels[j], Text) == [FirstFailure(source, err, Text)];
    OnlyJudgedBlames(labels[j], source, err);
    assert HasJudged(labels, source);
    RunJudgesTaken(managed, labels, source);
  }

  predicate StoppedWith(l: Label, source: Source, e: Error) {
    l == Stopped(source, Some(e)) || (source == Server && e == DEADLINE_EXCEEDED && l == Overdue(Server))
  }

  lemma StopFailureWasStopped(labels: seq<Label>, source: Source, e: Error)
    requires Blamed(labels, Text, StopFailure(source, e, Text))
    ensures exists j :: 0 <= j < |labels| && StoppedWith(labels[j], source, e) && Settles(labels[j], source)
                        && Blame(labels[j], Text) != []
  {
    var j :| 0 <= j < |labels| && Blame(labels[j], Text) == [StopFailure(source, e, Text)];
    OnlyStoppedBlames(labels[j], source, e);
    assert StoppedWith(labels[j], source, e) && Settles(labels[j], source);
  }

  lemma TakenSettles(labels: seq<Label>, source: Source)
    requires HasTaken(labels, source)
    ensures exists k :: 0 <= k < |labels| && labels[k].Took? && Settles(labels[k], source)
  {
    var k :| 0 <= k < |labels| && labels[k].Took? && labels[k].source == source;
    assert Settles(labels[k], source);
  }

  /** A goroutine is given up only behind the shutdown timeout. Then its message is
      never heard, the timeout is reported, and no failure of its own is (save that
      a server's deadline error would read like the timeout itself). */
  lemma OverdueReportsTimeout(managed: bool, labels: seq<Label>, i: nat, source: Source, e: Error)
    requires Run(managed, labels).Some? && i < |labels| && labels[i] == Overdue(source)
    ensures DeadlinePassed in labels[..i] && !Heard(labels, source)
    ensures Timeout(source, Text) in Reports(RunErr(labels, Text))
    ensures Reported(source, e, Reports(RunErr(labels, Text))) ==> source == Server && e == DEADLINE_EXCEEDED
  {
    OverdueUnheard(managed, labels, i, source);
    OverdueIsBlamed(managed, labels, i, source);
    ReportedIsBlamed(managed, labels, FirstFailure(source, Some(e), Text));
    ReportedIsBlamed(managed, labels, StopFailure(source, e, Text));
    if Blamed(labels, Text, FirstFailure(source, Some(e), Text)) {
      FirstFailureWasTaken(managed, labels, source, Some(e));
      TakenIsHeard(labels, source);
    }
    if Blamed(labels, Text, StopFailure(source, e, Text)) {
      StopFailureWasStopped(labels, source, e);
      var j :| 0 <= j < |labels| && StoppedWith(labels[j], source, e);
      assert !Hears(labels[j], source);
    }
  }

  lemma TakenIsHeard(labels: seq<Label>, source: Source)
    requires HasTaken(labels, source)
    ensures Heard(labels, source)
  {
  }

  lemma OverdueUnheard(managed: bool, labels: seq<Label>, i: nat, source: Source)
    requires Run(managed, labels).Some? && i < |labels| && labels[i] == Overdue(source)
    ensures DeadlinePassed in labels[..i] && !Heard(labels, source)
    ensures forall j :: 0 <= j < |labels| ==> !Hears(labels[j], source)
  {
    RunSettledOnce(managed, labels, source);
    assert Settles(labels[i], source);
    forall j | 0 <= j < |labels| ensures !Hears(labels[j], source) {
      assert Hears(labels[j], source) ==> Settles(labels[j], source) && j != i;
    }
  }

  lemma OverdueIsBlamed(managed: bool, labels: seq<Label>, i: nat, source: Source)
    requires Run(managed, labels).Some? && i < |labels| && labels[i] == Overdue(source)
    ensures Timeout(source, Text) in Reports(RunErr(labels, Text))
  {
    ReportedIsBlamed(managed, labels, Timeout(source, Text));
    OverdueBlame(source, Text);
    assert Blame(labels[i], Text) == [Timeout(source, Text)];
  }

  lemma OverdueBlame(source: Source, text: Texts)
    ensures Blame(Overdue(source), text) == [Timeout(source, text)]
  {
  }

  // ----- exactly when a failure is reported -----

  /** The goroutine of `source` failed with `e`. */
  predicate FailedWith(labels: seq<Label>, source: Source, e: Error) {
    CallReturned(source, Some(e)) in labels && !IsClosing(source, e)
  }

  /** A lease may end by cancellation while the host shuts down. */
  predicate EndedByCancellation(labels: seq<Label>, source: Source, e: Error) {
    source == Lease && Stopped(Lease, Some(e)) in labels && Is(e, CONTEXT_CANCELED)
  }

  /** What was heard of a failed goroutine that was not given up is its failure. */
  lemma FailureIsHeard(managed: bool, labels: seq<Label>, source: Source, e: Error)
    requires Run(managed, labels).Some? && Run(managed, labels).value.pc.Done?
    requires FailedWith(labels, source, e) && Overdue(source) !in labels
    ensures exists k ::
              && 0 <= k < |labels| && Hears(labels[k], source) && labels[k].err == Some(e)
              && OnlySettles(labels, source, k)
  {
    RunFlows(managed, labels, source);
    var i :| 0 <= i < |labels| && labels[i] == CallReturned(source, Some(e));
    assert IsReturn(labels[i], source);
    SettledExactlyOnce(managed, labels, source);
    var k :| 0 <= k < |labels| && Settles(labels[k], source)
             && forall j :: 0 <= j < |labels| && Settles(labels[j], source) ==> j == k;
    assert Hears(labels[k], source) && OnlySettles(labels, source, k);
  }

  lemma ReportedBlamed(managed: bool, labels: seq<Label>, source: Source, e: Error)
    requires Run(managed, labels).Some?
    ensures Reported(source, e, Reports(RunErr(labels, Text))) <==>
            || Blamed(labels, Text, FirstFailure(source, Some(e), Text))
            || Blamed(labels, Text, StopFailure(source, e, Text))
  {
    ReportedIsBlamed(managed, labels, FirstFailure(source, Some(e), Text));
    ReportedIsBlamed(managed, labels, StopFailure(source, e, Text));
  }

  /** `k` is where this goroutine is settled. */
  predicate OnlySettles(labels: seq<Label>, source: Source, k: nat) {
    forall j :: 0 <= j < |labels| && Settles(labels[j], source) ==> j == k
  }

  lemma TakenIsNotStopped(labels: seq<Label>, source: Source, e: Error, k: nat)
    requires k < |labels| && labels[k] == Took(source, Some(e)) && OnlySettles(labels, source, k)
    ensures !Blamed(labels, Text, StopFailure(source, e, Text)) && !EndedByCancellation(labels, source, e)
  {
    if Blamed(labels, Text, StopFailure(source, e, Text)) {
      StopFailureWasStopped(labels, source, e);
    }
    if EndedByCancellation(labels, source, e) {
      var j :| 0 <= j < |labels| && labels[j] == Stopped(Lease, Some(e));
      assert Settles(labels[j], source);
    }
  }

  lemma TakenBlamedIff(managed: bool, labels: seq<Label>, source: Source, e: Error, k: nat)
    requires Run(managed, labels).Some? && Run(managed, labels).value.pc.Done?
    requires k < |labels| && labels[k] == Took(source, Some(e))
    ensures Blamed(labels, Text, FirstFailure(source, Some(e), Text)) <==> !DroppedAtFirst(labels, source)
  {
    FirstFailureKeptIff(managed, labels, k);
    ReportedIsBlamed(managed, labels, FirstFailure(source, Some(e), Text));
    RunDecidesOnce(managed, labels);
    var i :| k < i < |labels| && DecidesOn(labels[i], source, Some(e))
             && (Blamed(labels, Text, FirstFailure(source, Some(e), Text)) <==> Ended !in labels[..i]);
    DroppedThere(Run(managed, labels).value, labels, source, e, k, i);
  }

  lemma DroppedThere(s: State, labels: seq<Label>, source: Source, e: Error, k: nat, i: nat)
    requires DecidedOnce(s, labels) && k < i < |labels|
    requires labels[k] == Took(source, Some(e)) && DecidesOn(labels[i], source, Some(e))
    ensures DroppedAtFirst(labels, source) <==> Ended in labels[..i]
  {
    assert Decides(labels[i]);
    if DroppedAtFirst(labels, source) {
      var m, j :| 0 <= m < j < |labels| && labels[m].Took? && labels[m].source == source
                  && DecidesOn(labels[j], source, labels[m].err) && Ended in labels[..j];
      assert Decides(labels[j]) && j == i;
    }
  }

  lemma StoppedIsNotTaken(labels: seq<Label>, source: Source, e: Error, k: nat)
    requires k < |labels| && labels[k] == Stopped(source, Some(e)) && OnlySettles(labels, source, k)
    ensures !HasTaken(labels, source) && !DroppedAtFirst(labels, source)
  {
    if HasTaken(labels, source) {
      TakenSettles(labels, source);
    }
  }

  lemma StoppedBlamedIff(labels: seq<Label>, source: Source, e: Error, k: nat)
    requires k < |labels| && labels[k] == Stopped(source, Some(e)) && OnlySettles(labels, source, k)
    ensures Blamed(labels, Text, StopFailure(source, e, Text)) <==> !EndedByCancellation(labels, source, e)
  {
    StoppedBlame(source, e, Text);
    assert labels[k] in labels;
    if Blamed(labels, Text, StopFailure(source, e, Text)) {
      StopFailureWasStopped(labels, source, e);
    }
    if !EndedByCancellation(labels, source, e) {
      assert Blame(labels[k], Text) == [StopFailure(source, e, Text)];
    }
  }

  lemma StoppedBlame(source: Source, e: Error, text: Texts)
    ensures Blame(Stopped(source, Some(e)), text) ==
            if source == Lease && Is(e, CONTEXT_CANCELED) then [] else [StopFailure(source, e, text)]
  {
    if source == Server {}
  }

  lemma TimeoutReadsLike(reports: seq<Error>)
    requires Timeout(Server, Text) in reports
    ensures Reported(Server, DEADLINE_EXCEEDED, reports)
  {
    assert Timeout(Server, Text) == StopFailure(Server, DEADLINE_EXCEEDED, Text);
  }

  lemma GivenUpReportedIff(managed: bool, labels: seq<Label>, source: Source, e: Error)
    requires Run(managed, labels).Some? && Overdue(source) in labels
    ensures Reported(source, e, Reports(RunErr(labels, Text))) <==> source == Server && e == DEADLINE_EXCEEDED
  {
    var i :| 0 <= i < |labels| && labels[i] == Overdue(source);
    OverdueReportsTimeout(managed, labels, i, source, e);
    if source == Server {
      TimeoutReadsLike(Reports(RunErr(labels, Text)));
    }
  }

  /** For every finished run and every failure of the server or of the lease: it is
      among those that `Run` returns exactly when the goroutine was not given up,
      its message was not taken at the first select with the context ended from
      outside before the deciding reading, and it is not a lease's cancellation
      that was taken while shutting down. Only a server's deadline error is there
      also when the goroutine was given up: the timeout itself reads like it. */
  lemma FailureReportedIff(managed: bool, labels: seq<Label>, source: Source, e: Error)
    requires Run(managed, labels).Some? && Run(managed, labels).value.pc.Done? && FailedWith(labels, source, e)
    ensures Reported(source, e, Reports(RunErr(labels, Text))) <==>
            if Overdue(source) in labels then source == Server && e == DEADLINE_EXCEEDED
            else !DroppedAtFirst(labels, source) && !EndedByCancellation(labels, source, e)
  {
    if Overdue(source) in labels {
      GivenUpReportedIff(managed, labels, source, e);
    } else {
      HeardReportedIff(managed, labels, source, e);
    }
  }

  lemma HeardReportedIff(managed: bool, labels: seq<Label>, source: Source, e: Error)
    requires Run(managed, labels).Some? && Run(managed, labels).value.pc.Done?
    requires FailedWith(labels, source, e) && Overdue(source) !in labels
    ensures Reported(source, e, Reports(RunErr(labels, Text))) <==>
            !DroppedAtFirst(labels, source) && !EndedByCancellation(labels, source, e)
  {
    ReportedBlamed(managed, labels, source, e);
    FailureIsHeard(managed, labels, source, e);
    var k :| && 0 <= k < |labels| && Hears(labels[k], source) && labels[k].err == Some(e)
             && OnlySettles(labels, source, k);
    if labels[k].Took? {
      TakenIsNotStopped(labels, source, e, k);
      TakenBlamedIff(managed, labels, source, e, k);
    } else {
      StoppedIsNotTaken(labels, source, e, k);
      StoppedBlamedIff(labels, source, e, k);
      if Blamed(labels, Text, FirstFailure(source, Some(e), Text)) {
        FirstFailureWasTaken(managed, labels, source, Some(e));
      }
    }
  }

  /** While the shutdown timeout has not passed, nothing is given up: then that is
      the whole condition, for every error. */
  lemma InTimeReportedIff(managed: bool, labels: seq<Label>, source: Source, e: Error)
    requires Run(managed, labels).Some? && Run(managed, labels).value.pc.Done?
    requires FailedWith(labels, source, e) && DeadlinePassed !in labels
    ensures Reported(source, e, Reports(RunErr(labels, Text))) <==>
            !DroppedAtFirst(labels, source) && !EndedByCancellation(labels, source, e)
  {
    if Overdue(source) in labels {
      var i :| 0 <= i < |labels| && labels[i] == Overdue(source);
      assert DeadlinePassed !in labels[..i];
      OverdueUnheard(managed, labels, i, source);
    }
    HeardReportedIff(managed, labels, source, e);
  }

  // ----- a failure that was sent in time and not heard -----

  /** The lease fails with `f`, the server with `e`, and shutting it down with `x`.
      When the second select comes, the server's message is there and the timeout
      has passed; the select may choose the timeout. */
  function UnheardRun(e: Error, f: Error, x: Error): (labels: seq<Label>)
    ensures |labels| == 16
  {
    [Accepted, ServerMade(true), Registered(None), ServerStarted,
     LeaseStarted, CallReturned(Lease, Some(f)), Sent(Lease), Took(Lease, Some(f)),
     Judged(Lease, f, true), CallReturned(Server, Some(e)), Sent(Server), Cancelled,
     DeadlinePassed, ShutDown(Some(x)), Overdue(Server), Deregistered(None)]
  }

  lemma UnheardMade(labels: seq<Label>)
    requires |labels| > 2 && labels[0] == Accepted && labels[1] == ServerMade(true) && labels[2] == Registered(None)
    ensures Run(true, labels[..3]) == Some(Start(true).(pc := Launching))
  {
    var s := Start(true);
    Extend(true, labels, 0, s, s.(pc := Making));
    Extend(true, labels, 1, s.(pc := Making), s.(pc := Registering));
    Extend(true, labels, 2, s.(pc := Registering), s.(pc := Launching));
  }

  lemma UnheardStart(labels: seq<Label>, s: State)
    requires |labels| > 4 && labels[3] == ServerStarted && labels[4] == LeaseStarted
    requires s == Start(true).(pc := Launching) && Run(true, labels[..3]) == Some(s)
    ensures Run(true, labels[..5]) ==
            Some(State(Selecting, true, false, false, false,
                       Worker(Running, None, false), Worker(Running, None, false)))
  {
    var s4 := s.(pc := LaunchingLease, server := Worker(Running, None, false));
    Extend(true, labels, 3, s, s4);
    Extend(true, labels, 4, s4, s4.(pc := Selecting, lease := Worker(Running, None, false)));
  }

  lemma UnheardLease(labels: seq<Label>, f: Error, s: State)
    requires |labels| > 8 && labels[5] == CallReturned(Lease, Some(f)) && labels[6] == Sent(Lease)
    requires labels[7] == Took(Lease, Some(f)) && labels[8] == Judged(Lease, f, true)
    requires s == State(Selecting, true, false, false, false,
                        Worker(Running, None, false), Worker(Running, None, false))
    requires Run(true, labels[..5]) == Some(s)
    ensures Run(true, labels[..9]) == Some(s.(pc := Cancelling, lease := Worker(Finished, None, true)))
  {
    var s6 := s.(lease := Worker(Returned(Some(f)), None, false));
    var s7 := s.(lease := Worker(Finished, Some(Some(f)), false));
    var s8 := s.(pc := SecondRead(Lease, f), lease := Worker(Finished, None, true));
    Extend(true, labels, 5, s, s6);
    Extend(true, labels, 6, s6, s7);
    Extend(true, labels, 7, s7, s8);
    Extend(true, labels, 8, s8, s8.(pc := Cancelling));
  }

  lemma UnheardServer(labels: seq<Label>, e: Error, s: State)
    requires !IsClosing(Server, e)
    requires |labels| > 12 && labels[9] == CallReturned(Server, Some(e)) && labels[10] == Sent(Server)
    requires labels[11] == Cancelled && labels[12] == DeadlinePassed
    requires s == State(Cancelling, true, false, false, false,
                        Worker(Running, None, false), Worker(Finished, None, true))
    requires Run(true, labels[..9]) == Some(s)
    ensures Run(true, labels[..13]) ==
            Some(State(ShuttingDown, true, false, true, true, Worker(Finished, Some(Some(e)), false), s.lease))
  {
    var s10 := s.(server := Worker(Returned(Some(e)), None, false));
    var s11 := s.(server := Worker(Finished, Some(Some(e)), false));
    var s12 := s11.(pc := ShuttingDown, cancelled := true);
    Extend(true, labels, 9, s, s10);
    Extend(true, labels, 10, s10, s11);
    Extend(true, labels, 11, s11, s12);
    Extend(true, labels, 12, s12, s12.(deadline := true));
  }

  lemma UnheardEnd(labels: seq<Label>, e: Error, x: Error, s: State)
    requires |labels| == 16 && labels[13] == ShutDown(Some(x)) && labels[14] == Overdue(Server)
    requires labels[15] == Deregistered(None)
    requires s == State(ShuttingDown, true, false, true, true,
                        Worker(Finished, Some(Some(e)), false), Worker(Finished, None, true))
    requires Run(true, labels[..13]) == Some(s)
    ensures Run(true, labels) == Some(s.(pc := Done))
  {
    Extend(true, labels, 13, s, s.(pc := AwaitingServer));
    Extend(true, labels, 14, s.(pc := AwaitingServer), s.(pc := Deregistering));
    Extend(true, labels, 15, s.(pc := Deregistering), s.(pc := Done));
    assert labels[..16] == labels;
  }

  /** A server failure sent before `Run` cancelled, before the timeout and without
      any end from outside may still be missing from what `Run` returns. */
  lemma SentInTimeUnheard(e: Error, f: Error, x: Error)
    requires !IsClosing(Server, e) && e != f && e != x && e != DEADLINE_EXCEEDED
    ensures var labels := UnheardRun(e, f, x);
            && Run(true, labels).Some? && Run(true, labels).value.pc.Done? && Ended !in labels
            && FailedWith(labels, Server, e)
            && labels[10] == Sent(Server) && Cancelled !in labels[..10] && DeadlinePassed !in labels[..10]
            && forall g :: g in Reports(RunErr(labels, Text)) ==> g.Staged? && g.cause != e
  {
    var labels := UnheardRun(e, f, x);
    UnheardRuns(e, f, x);
    UnheardLabels(e, f, x);
    forall g | g in Reports(RunErr(labels, Text)) ensures g.Staged? && g.cause != e {
      ReportedIsBlamed(true, labels, g);
      UnheardBlames(e, f, x, g);
    }
  }

  lemma UnheardBegins(e: Error, f: Error, x: Error)
    ensures Run(true, UnheardRun(e, f, x)[..9]) ==
            Some(State(Cancelling, true, false, false, false,
                       Worker(Running, None, false), Worker(Finished, None, true)))
  {
    var labels := UnheardRun(e, f, x);
    UnheardMade(labels);
    UnheardStart(labels, Run(true, labels[..3]).value);
    UnheardLease(labels, f, Run(true, labels[..5]).value);
  }

  lemma UnheardRuns(e: Error, f: Error, x: Error)
    requires !IsClosing(Server, e)
    ensures Run(true, UnheardRun(e, f, x)).Some? && Run(true, UnheardRun(e, f, x)).value.pc.Done?
  {
    var labels := UnheardRun(e, f, x);
    UnheardBegins(e, f, x);
    UnheardServer(labels, e, Run(true, labels[..9]).value);
    UnheardEnd(labels, e, x, Run(true, labels[..13]).value);
  }

  lemma UnheardLabels(e: Error, f: Error, x: Error)
    ensures var labels := UnheardRun(e, f, x);
            && Ended !in labels && labels[9] == CallReturned(Server, Some(e)) && labels[10] == Sent(Server)
            && Cancelled !in labels[..10] && DeadlinePassed !in labels[..10]
  {
  }

  lemma UnheardBlames(e: Error, f: Error, x: Error, g: Error)
    requires e != f && e != x && e != DEADLINE_EXCEEDED && Blamed(UnheardRun(e, f, x), Text, g)
    ensures g.Staged? && g.cause != e
  {
    var labels := UnheardRun(e, f, x);
    var j :| 0 <= j < 16 && Blame(labels[j], Text) == [g];
    assert Failure(labels[j]).Some? && g.cause == Failure(labels[j]).value.1;
    UnheardFails(e, f, x, j);
  }

  lemma UnheardFails(e: Error, f: Error, x: Error, j: nat)
    requires j < 16 && Failure(UnheardRun(e, f, x)[j]).Some?
    ensures Failure(UnheardRun(e, f, x)[j]).value.1 in {f, x, DEADLINE_EXCEEDED}
  {
  }
}
