/** What becomes of the failure that ends the host's first select: exactly when
    `Run` keeps it, and when it drops it because the context had ended. */
module HostFailures {
  import opened Prelude
  import opened Errors
  import opened HostErrors
  import opened Host
  import opened HostRuns
  import opened HostOutcome

  /** The labels that read the context after a message was taken. */
  predicate Reads(l: Label) {
    l.ReadNil? || l.Judged?
  }

  /** The reading at which `Run` keeps or drops the failure. */
  predicate Decides(l: Label) {
    l.Judged? || (l.ReadNil? && !l.live)
  }

  /** What a message taken at the first select means: its error, or that the
      goroutine stopped early. */
  function Cause(source: Source, err: Option<Error>): Error {
    if err.Some? then err.value
    else if source == Server then Message("server stopped before host cancellation")
    else Message("registration lease stopped before host cancellation")
  }

  predicate DecidesOn(l: Label, source: Source, err: Option<Error>) {
    match l
    case Judged(from, failure, _) => from == source && failure == Cause(source, err)
    case ReadNil(from, live) => from == source && !live && err.None?
    case _ => false
  }

  /** The staged form of such a failure. */
  function FirstFailure(source: Source, err: Option<Error>, text: Texts): Error {
    var cause := Cause(source, err);
    Staged(if source == Server then SERVE else REGISTRATION, text(Judged(source, cause, true)), cause)
  }

  // ----- readings are fresh -----

  predicate FreshReadings(s: State, past: seq<Label>) {
    EndedOutside(s, past) &&
    forall i :: 0 <= i < |past| && Reads(past[i]) ==> (past[i].live <==> Ended !in past[..i])
  }

  lemma ReadingIsFresh(s: State, l: Label)
    requires Calm(s) && Advance(s, l).Some? && Reads(l)
    ensures l.live <==> !s.ended
  {
  }

  lemma FreshReadingsStep(s: State, l: Label, past: seq<Label>)
    requires Calm(s) && Next(s, l).Some? && FreshReadings(s, past)
    ensures FreshReadings(Next(s, l).value, past + [l])
  {
    EndedOutsideStep(s, l, past);
    if Reads(l) {
      ReadingIsFresh(s, l);
    }
    var all := past + [l];
    forall i | 0 <= i < |all| && Reads(all[i]) ensures all[i].live <==> Ended !in all[..i] {
      assert all[..i] == past[..i];
    }
  }

  lemma RunReadsFresh(managed: bool, labels: seq<Label>)
    requires Run(managed, labels).Some?
    ensures FreshReadings(Run(managed, labels).value, labels)
  {
    var claim: Claim := (s, past) => FreshReadings(s, past);
    assert claim(Start(managed), []);
    forall s, past, l | Sound(s, past, managed) && claim(s, past) && Next(s, l).Some?
      ensures claim(Next(s, l).value, past + [l])
    {
      FreshReadingsStep(s, l, past);
    }
    AlwaysToo(managed, labels, claim);
  }

  /** A failure that `Run` judges counts exactly when the context had not been
      ended from outside before. */
  lemma JudgedIff(managed: bool, labels: seq<Label>, i: nat)
    requires Run(managed, labels).Some? && i < |labels| && labels[i].Judged?
    ensures Failure(labels[i]).Some? <==> Ended !in labels[..i]
  {
    RunReadsFresh(managed, labels);
    assert Reads(labels[i]);
    assert Failure(labels[i]).Some? <==> labels[i].live by {
      if labels[i].source == Server {}
    }
  }

  // ----- what is taken is decided, once -----

  /** The message taken at `k` is still being looked at, or has been decided. */
  predicate Followed(s: State, past: seq<Label>, k: nat)
    requires k < |past| && past[k].Took?
  {
    var source, err := past[k].source, past[k].err;
    || (s.pc == FirstRead(source) && err.None?)
    || s.pc == SecondRead(source, Cause(source, err))
    || exists i :: k < i < |past| && DecidesOn(past[i], source, err)
  }

  predicate DecidedOnce(s: State, past: seq<Label>) {
    && (forall i :: 0 <= i < |past| && Decides(past[i]) ==> PcRank(s.pc) <= 5)
    && (forall i, j :: 0 <= i < j < |past| ==> !(Decides(past[i]) && Decides(past[j])))
    && (forall k :: 0 <= k < |past| && past[k].Took? ==> Followed(s, past, k))
  }

  lemma DecisionRanks(s: State, l: Label)
    requires Next(s, l).Some?
    ensures PcRank(Next(s, l).value.pc) <= PcRank(s.pc)
    ensures Decides(l) ==> PcRank(s.pc) >= 6 && PcRank(Next(s, l).value.pc) <= 5
  {
    if IsWorldly(l) {
      WorldFalls(s, l);
    } else {
      PcFalls(s, l);
    }
  }

  /** Where the step after a taken message leads. */
  lemma LookedAt(s: State, l: Label, source: Source, err: Option<Error>)
    requires Next(s, l).Some?
    requires (s.pc == FirstRead(source) && err.None?) || s.pc == SecondRead(source, Cause(source, err))
    ensures var t := Next(s, l).value;
            t.pc == s.pc || t.pc == SecondRead(source, Cause(source, err)) || DecidesOn(l, source, err)
  {
    if IsWorldly(l) {
      WorldFalls(s, l);
    } else {
      ReadsWhereItLooks(s, l);
    }
  }

  lemma ReadsWhereItLooks(s: State, l: Label)
    requires Advance(s, l).Some?
    ensures s.pc.FirstRead? ==> l.ReadNil? && s.pc == FirstRead(l.source)
    ensures s.pc.SecondRead? ==> l.Judged? && s.pc == SecondRead(l.source, l.failure)
  {
  }

  lemma TakenIsLookedAt(s: State, l: Label)
    requires Next(s, l).Some? && l.Took?
    ensures var t := Next(s, l).value;
            (t.pc == FirstRead(l.source) && l.err.None?) || t.pc == SecondRead(l.source, Cause(l.source, l.err))
  {
  }

  lemma FollowedStep(s: State, l: Label, past: seq<Label>, k: nat)
    requires Next(s, l).Some? && k < |past| && past[k].Took? && Followed(s, past, k)
    ensures Followed(Next(s, l).value, past + [l], k)
  {
    var all := past + [l];
    var source, err := past[k].source, past[k].err;
    assert all[k] == past[k] && all[|past|] == l;
    if i :| k < i < |past| && DecidesOn(past[i], source, err) {
      assert DecidesOn(all[i], source, err);
    } else {
      LookedAt(s, l, source, err);
    }
  }

  lemma DecidedOnceStep(s: State, l: Label, past: seq<Label>)
    requires Next(s, l).Some? && DecidedOnce(s, past)
    ensures DecidedOnce(Next(s, l).value, past + [l])
  {
    var all := past + [l];
    assert all[|past|] == l && forall i :: 0 <= i < |past| ==> all[i] == past[i];
    DecisionRanks(s, l);
    forall k | 0 <= k < |all| && all[k].Took? ensures Followed(Next(s, l).value, all, k) {
      if k < |past| {
        FollowedStep(s, l, past, k);
      } else {
        TakenIsLookedAt(s, l);
      }
    }
  }

  lemma RunDecidesOnce(managed: bool, labels: seq<Label>)
    requires Run(managed, labels).Some?
    ensures DecidedOnce(Run(managed, labels).value, labels)
  {
    var claim: Claim := (s, past) => DecidedOnce(s, past);
    assert claim(Start(managed), []);
    forall s, past, l | Sound(s, past, managed) && claim(s, past) && Next(s, l).Some?
      ensures claim(Next(s, l).value, past + [l])
    {
      DecidedOnceStep(s, l, past);
    }
    AlwaysToo(managed, labels, claim);
  }

  // ----- what is reported -----

  /** Failures are told apart by stage and message: only a judgement looks like this one. */
  ghost predicate TellsApart(text: Texts) {
    forall l, source: Source, err ::
      Blame(l, text) == [FirstFailure(source, err, text)] ==> l == Judged(source, Cause(source, err), true)
  }

  lemma HostTellsApart()
    ensures TellsApart(Text)
  {
    forall l, source: Source, err | Blame(l, Text) == [FirstFailure(source, err, Text)]
      ensures l == Judged(source, Cause(source, err), true)
    {
      OnlyJudgedBlames(l, source, err);
    }
  }

  lemma OnlyJudgedBlames(l: Label, source: Source, err: Option<Error>)
    requires Blame(l, Text) == [FirstFailure(source, err, Text)]
    ensures l == Judged(source, Cause(source, err), true)
  {
    StagesDiffer();
    StageTells(l);
    TextSizes(l);
    TextSizes(Judged(source, Cause(source, err), true));
  }

  lemma StageTells(l: Label)
    requires Failure(l).Some?
    ensures Failure(l).value.0 == SERVE <==> l.Judged? && l.source == Server
    ensures Failure(l).value.0 == REGISTRATION ==>
              l.Registered? || (l.Judged? && l.source == Lease) || (l.Stopped? && l.source == Lease)
    ensures l.Judged? ==> l.live && Failure(l).value.1 == l.failure
  {
    StagesDiffer();
  }

  lemma TextSizes(l: Label)
    ensures l.Judged? && l.source == Lease ==> |Text(l)| == 18
    ensures l.Registered? ==> |Text(l)| == 16
    ensures l.Stopped? ==> |Text(l)| == 11 || |Text(l)| == 23
  {
  }

  lemma StagesDiffer()
    ensures |CONFIG| == 6 && |REGISTRATION| == 12 && |SERVE| == 5 && |SHUTDOWN| == 8
  {
  }

  lemma {:induction false} BlamedIff(labels: seq<Label>, text: Texts, e: Error)
    ensures e in Blames(labels, text) <==> exists j :: 0 <= j < |labels| && e in Blame(labels[j], text)
  {
    if labels != [] {
      var n := |labels| - 1;
      BlamedIff(labels[..n], text, e);
      assert forall j :: 0 <= j < n ==> labels[..n][j] == labels[j];
    }
  }

  /** For every finished run and a message taken at its first select, from the
      server or from the lease: one later reading of the context decides, and the
      failure is among those that `Run` returns exactly when the context had not
      been ended from outside before that reading. */
  lemma FirstFailureKeptIff(managed: bool, labels: seq<Label>, k: nat)
    requires Run(managed, labels).Some? && Run(managed, labels).value.pc.Done?
    requires k < |labels| && labels[k].Took?
    ensures exists i ::
              && k < i < |labels| && DecidesOn(labels[i], labels[k].source, labels[k].err)
              && (FirstFailure(labels[k].source, labels[k].err, Text) in Reports(RunErr(labels, Text)) <==>
                  Ended !in labels[..i])
  {
    RunDecidesOnce(managed, labels);
    RunReadsFresh(managed, labels);
    ErrorIsFailures(managed, labels);
    HostTellsApart();
    assert Followed(Run(managed, labels).value, labels, k);
    var source, err := labels[k].source, labels[k].err;
    var i :| k < i < |labels| && DecidesOn(labels[i], source, err);
    KeptIff(Run(managed, labels).value, labels, Text, source, err, i);
  }

  lemma KeptIff(s: State, labels: seq<Label>, text: Texts, source: Source, err: Option<Error>, i: nat)
    requires TellsApart(text) && DecidedOnce(s, labels) && FreshReadings(s, labels)
    requires i < |labels| && DecidesOn(labels[i], source, err)
    ensures FirstFailure(source, err, text) in Blames(labels, text) <==> Ended !in labels[..i]
  {
    var e := FirstFailure(source, err, text);
    assert Decides(labels[i]) && Reads(labels[i]);
    BlamedIff(labels, text, e);
    if j :| 0 <= j < |labels| && e in Blame(labels[j], text) {
      OneBlame(labels[j], text, e);
      BlamedIsJudged(labels[j], text, source, err);
      assert i == j;
    }
    if labels[i].live {
      JudgedBlame(source, err, text);
      assert e in Blame(labels[i], text);
    }
  }

  lemma BlamedIsJudged(l: Label, text: Texts, source: Source, err: Option<Error>)
    requires TellsApart(text) && Blame(l, text) == [FirstFailure(source, err, text)]
    ensures l == Judged(source, Cause(source, err), true) && Decides(l)
  {
  }

  lemma JudgedBlame(source: Source, err: Option<Error>, text: Texts)
    ensures Blame(Judged(source, Cause(source, err), true), text) == [FirstFailure(source, err, text)]
  {
    if source == Server {}
  }

  lemma OneBlame(l: Label, text: Texts, e: Error)
    requires e in Blame(l, text)
    ensures Blame(l, text) == [e]
  {
  }

  /** A message that `Run` takes while it shuts down is reported whenever it is an
      error, except that a lease may end by cancellation. */
  lemma StoppedFailureKeptIff(managed: bool, labels: seq<Label>, i: nat)
    requires Run(managed, labels).Some? && i < |labels| && labels[i].Stopped?
    ensures Failure(labels[i]).Some? <==>
              labels[i].err.Some? && !(labels[i].source == Lease && Is(labels[i].err.value, CONTEXT_CANCELED))
    ensures Failure(labels[i]).Some? ==> Blame(labels[i], Text)[0] in Reports(RunErr(labels, Text))
  {
    ErrorIsFailures(managed, labels);
    StoppedFails(labels[i]);
    if Failure(labels[i]).Some? {
      BlamedIff(labels, Text, Blame(labels[i], Text)[0]);
    }
  }

  lemma StoppedFails(l: Label)
    requires l.Stopped?
    ensures Failure(l).Some? <==> l.err.Some? && !(l.source == Lease && Is(l.err.value, CONTEXT_CANCELED))
  {
    if l.source == Server {}
  }
}
