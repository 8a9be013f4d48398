/** What the host's `Run` returns: which failures, in which order, and when none. */
module HostOutcome {
  import opened Prelude
  import opened Errors
  import opened HostErrors
  import opened Host
  import opened HostRuns

  // ----- what counts as a failure -----

  /** The failure that one label reveals, and the stage it belongs to. */
  function Failure(l: Label): Option<(string, Error)> {
    match l
    case Refused => Some((CONFIG, NO_HOST))
    case ServerMade(false) => Some((CONFIG, NO_SERVER))
    case Registered(Some(e)) => Some((REGISTRATION, e))
    case Judged(Server, e, true) => Some((SERVE, e))
    case Judged(Lease, e, true) => Some((REGISTRATION, e))
    case ShutDown(Some(e)) => Some((SHUTDOWN, e))
    case Stopped(Server, Some(e)) => Some((SHUTDOWN, e))
    case Stopped(Lease, Some(e)) => if Is(e, CONTEXT_CANCELED) then None else Some((REGISTRATION, e))
    case Overdue(_) => Some((SHUTDOWN, DEADLINE_EXCEEDED))
    case Deregistered(Some(e)) => Some((SHUTDOWN, e))
    case _ => None
  }

  function Blame(l: Label, text: Texts): seq<Error> {
    match Failure(l)
    case None => []
    case Some((stage, cause)) => [Staged(stage, text(l), cause)]
  }

  /** The server that a shutdown has closed did not fail. */
  predicate IsClosing(source: Source, e: Error) {
    source == Server && Is(e, SERVER_CLOSED)
  }

  /** The failures of a run, in the order in which they came to light. */
  function Blames(labels: seq<Label>, text: Texts): (r: seq<Error>)
    ensures forall i :: 0 <= i < |r| ==> r[i].Staged?
  {
    if labels == [] then [] else Blames(labels[..|labels| - 1], text) + Blame(labels[|labels| - 1], text)
  }

  // ----- the messages are valid -----

  lemma PlainMessage(m: string)
    requires 0 < |m| <= 128 && m[0] != ' ' && m[|m| - 1] != ' '
    requires forall i :: 0 <= i < |m| ==> ' ' <= m[i] <= 'z'
    ensures ValidMessage(m)
  {
    AsciiLength(m);
  }

  ghost predicate AllValid(text: Texts) {
    forall l :: ValidMessage(text(l))
  }

  lemma TextValid(l: Label)
    ensures ValidMessage(Text(l))
  {
    if l.Refused? || l.ServerMade? || l.Registered? || l.Judged? {
      EarlyText(l);
    } else {
      LateText(l);
    }
  }

  lemma EarlyText(l: Label)
    requires l.Refused? || l.ServerMade? || l.Registered? || l.Judged?
    ensures ValidMessage(Text(l))
  {
    PlainMessage(Text(l));
  }

  lemma LateText(l: Label)
    requires !(l.Refused? || l.ServerMade? || l.Registered? || l.Judged?)
    ensures ValidMessage(Text(l))
  {
    PlainMessage(Text(l));
  }

  lemma TextsValid()
    ensures AllValid(Text)
  {
    forall l ensures ValidMessage(Text(l)) {
      TextValid(l);
    }
  }

  // ----- the error is the failures -----

  /** The labels that assign `runErr` rather than join to it. */
  predicate Assigns(l: Label) {
    l.Refused? || l.ServerMade? || l.Registered? || l.Judged?
  }

  lemma JoiningReports(runErr: Option<Error>, stage: string, message: string, err: Option<Error>)
    requires ValidStage(stage) && ValidMessage(message)
    ensures Reports(Joining(runErr, stage, message, err)) ==
            if err.None? then Reports(runErr) else Reports(runErr) + [Staged(stage, message, err.value)]
  {
    if err.Some? {
      JoinReports(runErr, Staged(stage, message, err.value));
    }
  }

  lemma NotedReports(runErr: Option<Error>, l: Label, text: Texts)
    requires ValidMessage(text(l)) && (Assigns(l) ==> runErr.None?)
    ensures Reports(Noted(runErr, l, text)) == Reports(runErr) + Blame(l, text)
  {
    if Assigns(l) {
      AssignedReports(l, text);
    } else {
      match l
      case ShutDown(err) => JoiningReports(runErr, SHUTDOWN, text(l), err);
      case Stopped(source, err) =>
        JoiningReports(runErr, if source == Server then SHUTDOWN else REGISTRATION, text(l), err);
      case Overdue(_) => JoiningReports(runErr, SHUTDOWN, text(l), Some(DEADLINE_EXCEEDED));
      case Deregistered(err) => JoiningReports(runErr, SHUTDOWN, text(l), err);
      case _ =>
    }
  }

  lemma AssignedReports(l: Label, text: Texts)
    requires ValidMessage(text(l)) && Assigns(l)
    ensures Reports(Noted(None, l, text)) == Blame(l, text)
  {
  }

  /** Only `Run`'s early returns and its first select assign, and all that comes
      before the second reading of the context is free of failures. */
  lemma AssignsEarly(s: State, l: Label)
    requires Calm(s) && Next(s, l).Some?
    ensures Assigns(l) ==> PcRank(s.pc) >= 6
    ensures PcRank(Next(s, l).value.pc) >= 6 ==> PcRank(s.pc) >= 6 && Failure(l).None?
  {
    if !IsWorldly(l) {
      PcFalls(s, l);
    }
  }

  predicate Accounted(s: State, past: seq<Label>, text: Texts) {
    && (PcRank(s.pc) >= 6 ==> RunErr(past, text).None?)
    && Reports(RunErr(past, text)) == Blames(past, text)
  }

  lemma AccountedStep(s: State, l: Label, past: seq<Label>, text: Texts)
    requires Calm(s) && Next(s, l).Some? && AllValid(text) && Accounted(s, past, text)
    ensures Accounted(Next(s, l).value, past + [l], text)
  {
    assert (past + [l])[..|past|] == past;
    AssignsEarly(s, l);
    NotedReports(RunErr(past, text), l, text);
  }

  /** The error that `Run` returns is nil or joins exactly the failures of the
      run, in the order in which they came to light. */
  lemma ErrorIsFailures(managed: bool, labels: seq<Label>)
    requires Run(managed, labels).Some?
    ensures Reports(RunErr(labels, Text)) == Blames(labels, Text)
  {
    TextsValid();
    var text: Texts := Text;
    var claim: Claim := (s, past) => Accounted(s, past, text);
    forall s, past, l | Sound(s, past, managed) && claim(s, past) && Next(s, l).Some?
      ensures claim(Next(s, l).value, past + [l])
    {
      AccountedStep(s, l, past, text);
    }
    AlwaysToo(managed, labels, claim);
  }

  /** A non-nil error is staged; its stage is that of the failure that came to
      light first; and `errors.Is` finds in it what it finds in any of them. */
  lemma StageOfFirstFailure(managed: bool, labels: seq<Label>, name: string)
    requires Run(managed, labels).Some? && RunErr(labels, Text).Some?
    ensures var e := RunErr(labels, Text).value;
            var failures := Blames(labels, Text);
            && failures != [] && StageOf(e) == Some(failures[0].stage)
            && (Is(e, Sentinel(name)) <==> exists i :: 0 <= i < |failures| && Is(failures[i].cause, Sentinel(name)))
  {
    ErrorIsFailures(managed, labels);
    var e := RunErr(labels, Text).value;
    assert Joined(e) == Blames(labels, Text);
    StageIsFirst(e);
    IsInJoined(e, name);
    assert forall i :: 0 <= i < |Joined(e)| ==>
             (Is(Joined(e)[i], Sentinel(name)) <==> Is(Joined(e)[i].cause, Sentinel(name)));
  }

  // ----- when it returns nil -----

  /** `Run` saw that the context had ended. */
  predicate SeesEnd(l: Label) {
    l.SawEnd? || (l.ReadNil? && !l.live) || (l.Judged? && !l.live)
  }

  /** Nothing went wrong while shutting down. */
  predicate Clean(l: Label) {
    match l
    case ShutDown(err) => err.None?
    case Stopped(source, err) => err.None? || (source == Lease && Is(err.value, CONTEXT_CANCELED))
    case Overdue(_) => false
    case Deregistered(err) => err.None?
    case _ => true
  }

  predicate SawTheEnd(labels: seq<Label>) {
    exists i :: 0 <= i < |labels| && SeesEnd(labels[i])
  }

  predicate AllClean(labels: seq<Label>) {
    forall i :: 0 <= i < |labels| ==> Clean(labels[i])
  }

  lemma OneMore(past: seq<Label>, l: Label, text: Texts)
    ensures SawTheEnd(past + [l]) <==> SawTheEnd(past) || SeesEnd(l)
    ensures AllClean(past + [l]) <==> AllClean(past) && Clean(l)
    ensures Blames(past + [l], text) == [] <==> Blames(past, text) == [] && Failure(l).None?
  {
    var all := past + [l];
    assert all[..|past|] == past && all[|past|] == l;
    assert forall i :: 0 <= i < |past| ==> all[i] == past[i];
  }

  /** How a step bears on the outcome: before the decision nothing does; the
      deciding step fails or sees the end; after it only unclean steps fail. */
  lemma Bearing(s: State, l: Label)
    requires Calm(s) && Next(s, l).Some?
    ensures PcRank(Next(s, l).value.pc) >= 6 ==> Failure(l).None? && !SeesEnd(l)
    ensures PcRank(s.pc) >= 6 ==> Clean(l)
    ensures PcRank(s.pc) >= 6 && PcRank(Next(s, l).value.pc) < 6 ==> (Failure(l).None? <==> SeesEnd(l))
    ensures PcRank(s.pc) < 6 ==> !SeesEnd(l) && (Failure(l).None? <==> Clean(l))
  {
    if IsWorldly(l) {
      WorldFalls(s, l);
    } else {
      PcFalls(s, l);
      if PcRank(s.pc) >= 6 {
        BearingEarly(s, l);
      } else {
        BearingLate(s, l);
      }
    }
  }

  lemma BearingEarly(s: State, l: Label)
    requires Calm(s) && Advance(s, l).Some? && PcRank(s.pc) >= 6
    ensures Clean(l)
    ensures if PcRank(Advance(s, l).value) >= 6 then Failure(l).None? && !SeesEnd(l)
            else Failure(l).None? <==> SeesEnd(l)
  {
  }

  lemma BearingLate(s: State, l: Label)
    requires Calm(s) && Advance(s, l).Some? && PcRank(s.pc) < 6
    ensures !SeesEnd(l) && (Failure(l).None? <==> Clean(l))
  {
  }

  predicate NilAt(s: State, past: seq<Label>, text: Texts) {
    if PcRank(s.pc) >= 6 then !SawTheEnd(past) && AllClean(past) && Blames(past, text) == []
    else Blames(past, text) == [] <==> SawTheEnd(past) && AllClean(past)
  }

  lemma NilStep(s: State, l: Label, past: seq<Label>, text: Texts)
    requires Calm(s) && Next(s, l).Some? && NilAt(s, past, text)
    ensures NilAt(Next(s, l).value, past + [l], text)
  {
    OneMore(past, l, text);
    Bearing(s, l);
    AssignsEarly(s, l);
  }

  lemma RunNil(managed: bool, labels: seq<Label>, text: Texts)
    requires Run(managed, labels).Some?
    ensures NilAt(Run(managed, labels).value, labels, text)
  {
    var claim: Claim := (s, past) => NilAt(s, past, text);
    forall s, past, l | Sound(s, past, managed) && claim(s, past) && Next(s, l).Some?
      ensures claim(Next(s, l).value, past + [l])
    {
      NilStep(s, l, past, text);
    }
    AlwaysToo(managed, labels, claim);
  }

  /** `Run` returns nil exactly when it saw the context end and every shutdown
      step that it waited for was clean. */
  lemma NilIff(managed: bool, labels: seq<Label>)
    requires Run(managed, labels).Some? && Run(managed, labels).value.pc.Done?
    ensures RunErr(labels, Text).None? <==> SawTheEnd(labels) && AllClean(labels)
  {
    RunNil(managed, labels, Text);
    ErrorIsFailures(managed, labels);
    NilReports(Run(managed, labels).value, RunErr(labels, Text), labels, Text);
  }

  lemma NilReports(s: State, runErr: Option<Error>, labels: seq<Label>, text: Texts)
    requires s.pc.Done? && NilAt(s, labels, text) && Reports(runErr) == Blames(labels, text)
    ensures runErr.None? <==> SawTheEnd(labels) && AllClean(labels)
  {
  }

  predicate EndedOutside(s: State, past: seq<Label>) {
    && (s.ended <==> Ended in past)
    && (s.cancelled <==> Cancelled in past)
    && forall i :: 0 <= i < |past| && SeesEnd(past[i]) ==> Ended in past[..i] && Cancelled !in past[..i]
  }

  lemma FlagsWorld(s: State, l: Label)
    requires World(s, l).Some?
    ensures World(s, l).value.ended <==> s.ended || l.Ended?
    ensures World(s, l).value.cancelled == s.cancelled
  {
  }

  lemma FlagsAdvance(s: State, l: Label)
    requires Calm(s) && Advance(s, l).Some?
    ensures Effect(s, l).ended == s.ended
    ensures Effect(s, l).cancelled <==> s.cancelled || l.Cancelled?
  {
  }

  lemma SeenEndIsEnd(s: State, l: Label)
    requires Calm(s) && Advance(s, l).Some? && SeesEnd(l)
    ensures s.ended && !s.cancelled
  {
  }

  lemma FlagsStep(s: State, l: Label)
    requires Calm(s) && Next(s, l).Some?
    ensures Next(s, l).value.ended <==> s.ended || l.Ended?
    ensures Next(s, l).value.cancelled <==> s.cancelled || l.Cancelled?
    ensures SeesEnd(l) ==> s.ended && !s.cancelled
  {
    if IsWorldly(l) {
      FlagsWorld(s, l);
    } else {
      FlagsAdvance(s, l);
      if SeesEnd(l) {
        SeenEndIsEnd(s, l);
      }
    }
  }

  lemma EndedOutsideStep(s: State, l: Label, past: seq<Label>)
    requires Calm(s) && Next(s, l).Some? && EndedOutside(s, past)
    ensures EndedOutside(Next(s, l).value, past + [l])
  {
    FlagsStep(s, l);
    var all := past + [l];
    forall i | 0 <= i < |all| && SeesEnd(all[i]) ensures Ended in all[..i] && Cancelled !in all[..i] {
      assert all[..i] == past[..i];
    }
  }

  lemma RunEndedOutside(managed: bool, labels: seq<Label>)
    requires Run(managed, labels).Some?
    ensures Sound(Run(managed, labels).value, labels, managed) && EndedOutside(Run(managed, labels).value, labels)
  {
    var claim: Claim := (s, past) => EndedOutside(s, past);
    forall s, past, l | Sound(s, past, managed) && claim(s, past) && Next(s, l).Some?
      ensures claim(Next(s, l).value, past + [l])
    {
      EndedOutsideStep(s, l, past);
    }
    AlwaysToo(managed, labels, claim);
  }

  /** An end that `Run` saw came from outside: it had happened before, and `Run`
      had not yet cancelled anything itself. */
  lemma EndCameFromOutside(managed: bool, labels: seq<Label>, i: nat)
    requires Run(managed, labels).Some? && i < |labels| && SeesEnd(labels[i])
    ensures Ended in labels[..i] && Cancelled !in labels[..i]
  {
    RunEndedOutside(managed, labels);
  }

  /** While `Run` shuts down, waits and deregisters, it has cancelled the context
      that the lease runs under. */
  lemma CancelsFirst(managed: bool, labels: seq<Label>)
    requires Run(managed, labels).Some?
    ensures Run(managed, labels).value.pc.ShuttingDown? || Run(managed, labels).value.pc.AwaitingServer?
            || Run(managed, labels).value.pc.AwaitingLease? || Run(managed, labels).value.pc.Deregistering?
            ==> Cancelled in labels
  {
    RunEndedOutside(managed, labels);
  }

  /** Not every server failure is reported: one whose message Run takes only to
      find the context ended is dropped, and `Run` returns nil. */
  lemma FailureDropped(e: Error)
    requires !IsClosing(Server, e)
    ensures exists labels ::
              && Run(false, labels).Some? && Run(false, labels).value.pc.Done?
              && CallReturned(Server, Some(e)) in labels && Took(Server, Some(e)) in labels
              && RunErr(labels, Text).None?
  {
    var labels := [Accepted, ServerMade(true), ServerStarted, CallReturned(Server, Some(e)), Sent(Server),
                   Took(Server, Some(e)), Ended, Judged(Server, e, false), Cancelled, ShutDown(None)];
    var s := State(Done, false, true, true, false, Worker(Finished, None, true), Worker(Idle, None, true));
    assert Run(false, labels) == Some(s) by {
      DroppedRun(e, labels);
    }
    assert labels[7] == Judged(Server, e, false) && SeesEnd(labels[7]);
    assert labels[3] == CallReturned(Server, Some(e)) && labels[5] == Took(Server, Some(e));
    assert AllClean(labels);
    NilIff(false, labels);
  }

  lemma DroppedRun(e: Error, labels: seq<Label>)
    requires !IsClosing(Server, e)
    requires labels == [Accepted, ServerMade(true), ServerStarted, CallReturned(Server, Some(e)), Sent(Server),
                        Took(Server, Some(e)), Ended, Judged(Server, e, false), Cancelled, ShutDown(None)]
    ensures Run(false, labels) ==
            Some(State(Done, false, true, true, false, Worker(Finished, None, true), Worker(Idle, None, true)))
  {
    DroppedStart(labels);
    DroppedTaken(e, labels, Run(false, labels[..3]).value);
    DroppedEnd(e, labels, Run(false, labels[..6]).value);
  }

  lemma DroppedStart(labels: seq<Label>)
    requires |labels| > 3 && labels[0] == Accepted && labels[1] == ServerMade(true) && labels[2] == ServerStarted
    ensures Run(false, labels[..3]) ==
            Some(State(Selecting, false, false, false, false, Worker(Running, None, false), Worker(Idle, None, true)))
  {
    var s0 := Start(false);
    Extend(false, labels, 0, s0, s0.(pc := Making));
    var s2 := s0.(pc := Launching);
    Extend(false, labels, 1, s0.(pc := Making), s2);
    Extend(false, labels, 2, s2, s2.(pc := Selecting, server := Worker(Running, None, false)));
  }

  lemma DroppedTaken(e: Error, labels: seq<Label>, s: State)
    requires !IsClosing(Server, e)
    requires |labels| > 5 && labels[3] == CallReturned(Server, Some(e)) && labels[4] == Sent(Server)
    requires labels[5] == Took(Server, Some(e))
    requires s == State(Selecting, false, false, false, false, Worker(Running, None, false), Worker(Idle, None, true))
    requires Run(false, labels[..3]) == Some(s)
    ensures Run(false, labels[..6]) == Some(s.(pc := SecondRead(Server, e), server := Worker(Finished, None, true)))
  {
    var s4 := s.(server := Worker(Returned(Some(e)), None, false));
    var s5 := s.(server := Worker(Finished, Some(Some(e)), false));
    Extend(false, labels, 3, s, s4);
    Extend(false, labels, 4, s4, s5);
    Extend(false, labels, 5, s5, s.(pc := SecondRead(Server, e), server := Worker(Finished, None, true)));
  }

  lemma DroppedEnd(e: Error, labels: seq<Label>, s: State)
    requires |labels| == 10 && labels[6] == Ended && labels[7] == Judged(Server, e, false)
    requires labels[8] == Cancelled && labels[9] == ShutDown(None)
    requires s == State(SecondRead(Server, e), false, false, false, false,
                        Worker(Finished, None, true), Worker(Idle, None, true))
    requires Run(false, labels[..6]) == Some(s)
    ensures Run(false, labels) == Some(s.(pc := Done, ended := true, cancelled := true))
  {
    var s7 := s.(ended := true);
    Extend(false, labels, 6, s, s7);
    var s8 := s7.(pc := Cancelling);
    Extend(false, labels, 7, s7, s8);
    var s9 := s8.(pc := ShuttingDown, cancelled := true);
    Extend(false, labels, 8, s8, s9);
    Extend(false, labels, 9, s9, s9.(pc := Done));
    assert labels[..10] == labels;
  }

  lemma Extend(managed: bool, labels: seq<Label>, n: nat, s: State, t: State)
    requires n < |labels| && Run(managed, labels[..n]) == Some(s) && Next(s, labels[n]) == Some(t)
    ensures Run(managed, labels[..n + 1]) == Some(t)
  {
    assert labels[..n + 1][..n] == labels[..n];
  }

  // ----- before it deregisters -----

  /** `Run` has received what the goroutine sent. */
  predicate Heard(labels: seq<Label>, source: Source) {
    exists i :: 0 <= i < |labels| && (labels[i].Took? || labels[i].Stopped?) && labels[i].source == source
  }

  /** `Run` is through with the server once it waits for the lease, and with the
      lease once it deregisters. */
  predicate Through(s: State, source: Source) {
    s.cancelled && PcRank(s.pc) < PcRank(Awaiting(source)) && (source == Lease ==> s.managed)
  }

  predicate HeardAt(s: State, past: seq<Label>, source: Source) {
    && (s.deadline <==> DeadlinePassed in past)
    && (Of(s, source).stopped && Launched(s, source) ==> Heard(past, source))
    && (Through(s, source) ==> Heard(past, source) || s.deadline)
  }

  predicate Hears(l: Label, source: Source) {
    (l.Took? || l.Stopped?) && l.source == source
  }

  lemma HeardOneMore(past: seq<Label>, l: Label, source: Source)
    ensures Heard(past + [l], source) <==> Heard(past, source) || Hears(l, source)
  {
    var all := past + [l];
    assert all[|past|] == l;
    assert forall i :: 0 <= i < |past| ==> all[i] == past[i];
  }

  lemma StoppedByTaking(s: State, l: Label, source: Source)
    ensures var t := Effect(s, l);
            && t.deadline == s.deadline && t.managed == s.managed
            && (Of(t, source).stopped <==> Of(s, source).stopped || (l.Took? && l.source == source))
  {
    if source == Server {}
  }

  lemma StoppedWasLaunched(s: State, source: Source)
    requires Calm(s) && !s.pc.Done? && Of(s, source).stopped && (source == Lease ==> s.managed)
    ensures Launched(s, source)
  {
  }

  lemma StoppedStep(s: State, l: Label, source: Source)
    requires Calm(s) && Advance(s, l).Some?
    ensures var t := Effect(s, l).(pc := Advance(s, l).value);
            && t.deadline == s.deadline
            && (Of(t, source).stopped && Launched(t, source) ==>
                  Hears(l, source) || (Of(s, source).stopped && Launched(s, source)))
  {
    PcFalls(s, l);
    StoppedByTaking(s, l, source);
    if Of(s, source).stopped && (source == Lease ==> s.managed) {
      StoppedWasLaunched(s, source);
    }
  }

  lemma ThroughStep(s: State, l: Label, source: Source)
    requires Calm(s) && Advance(s, l).Some?
    ensures var t := Effect(s, l).(pc := Advance(s, l).value);
            Through(t, source) ==>
              Hears(l, source) || s.deadline || Through(s, source) || (Of(s, source).stopped && Launched(s, source))
  {
    PcFalls(s, l);
  }

  lemma WorldDeadline(s: State, l: Label, source: Source)
    requires Calm(s) && World(s, l).Some?
    ensures var t := World(s, l).value;
            && (t.deadline <==> s.deadline || l.DeadlinePassed?) && !Hears(l, source)
            && t.pc == s.pc && t.managed == s.managed && t.cancelled == s.cancelled
            && Of(t, source).stopped == Of(s, source).stopped
  {
  }

  lemma HeardStep(s: State, l: Label, past: seq<Label>, source: Source)
    requires Calm(s) && Next(s, l).Some? && HeardAt(s, past, source)
    ensures HeardAt(Next(s, l).value, past + [l], source)
  {
    HeardOneMore(past, l, source);
    if IsWorldly(l) {
      WorldDeadline(s, l, source);
    } else {
      StoppedStep(s, l, source);
      ThroughStep(s, l, source);
    }
  }

  lemma RunHeard(managed: bool, labels: seq<Label>, source: Source)
    requires Run(managed, labels).Some?
    ensures HeardAt(Run(managed, labels).value, labels, source) && Sound(Run(managed, labels).value, labels, managed)
  {
    var claim: Claim := (s, past) => HeardAt(s, past, source);
    forall s, past, l | Sound(s, past, managed) && claim(s, past) && Next(s, l).Some?
      ensures claim(Next(s, l).value, past + [l])
    {
      HeardStep(s, l, past, source);
    }
    AlwaysToo(managed, labels, claim);
  }

  /** While it deregisters, `Run` has heard from the server and from the lease,
      or the shutdown timeout has passed. */
  lemma DeregistersLast(managed: bool, labels: seq<Label>, source: Source)
    requires Run(managed, labels).Some? && Run(managed, labels).value.pc.Deregistering?
    ensures Heard(labels, source) || DeadlinePassed in labels
  {
    RunHeard(managed, labels, source);
    assert Through(Run(managed, labels).value, source);
  }
}
