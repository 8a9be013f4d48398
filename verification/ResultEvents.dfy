/** Result stream events and the machine that checks their order. The validator
    itself belongs to Core; this is the behaviour the SDK documents for it. */
module ResultEvents {
  import opened Prelude

  datatype Kind = Accepted | Chunk | Completed | Failed | Canceled | TimedOut | Other(name: Bytes)

  datatype Ids = Ids(invocation: Bytes, rootTask: Bytes, trace: Bytes)

  datatype Event = Event(kind: Kind, sequence: int, chunkIndex: Option<int>, ids: Ids, content: Bytes)

  predicate IsTerminal(e: Event) {
    e.kind in {Completed, Failed, Canceled, TimedOut}
  }

  // ----- well-formed runs -----

  function Chunks(events: seq<Event>): nat {
    if events == [] then 0
    else Chunks(events[..|events| - 1]) + (if events[|events| - 1].kind.Chunk? then 1 else 0)
  }

  /** A prefix of one invocation's run: it starts with `accepted` and nothing
      else does, all events carry the same identifiers, sequence numbers and
      chunk indices count up from 0, and a terminal event is the last one. */
  predicate WellFormed(ids: Ids, events: seq<Event>) {
    forall i :: 0 <= i < |events| ==> Fits(ids, events, i)
  }

  predicate Fits(ids: Ids, events: seq<Event>, i: nat)
    requires i < |events|
  {
    FitsAfter(ids, events[..i], events[i]) && (IsTerminal(events[i]) ==> i == |events| - 1)
  }

  /** What an event must be to come next. */
  predicate FitsAfter(ids: Ids, events: seq<Event>, e: Event) {
    && !e.kind.Other?
    && e.ids == ids
    && e.sequence == |events|
    && (e.kind.Accepted? <==> events == [])
    && (e.kind.Chunk? ==> e.chunkIndex == Some(Chunks(events)))
  }

  predicate Complete(events: seq<Event>) {
    events != [] && IsTerminal(events[|events| - 1])
  }

  // ----- the validator -----

  datatype Validator = Validator(ids: Ids, next: nat, nextChunk: nat, terminal: bool)

  function NewValidator(ids: Ids): Validator {
    Validator(ids, 0, 0, false)
  }

  /** The next state, or nothing when the event is refused. `admits` is Core's
      check of one event on its own. */
  function Accept(v: Validator, e: Event, admits: Event -> bool): Option<Validator> {
    if !admits(e) || v.terminal || e.kind.Other? || e.ids != v.ids || e.sequence != v.next then None
    else if e.kind.Accepted? != (v.next == 0) then None
    else if e.kind.Chunk? && e.chunkIndex != Some(v.nextChunk) then None
    else Some(Validator(v.ids, v.next + 1, if e.kind.Chunk? then v.nextChunk + 1 else v.nextChunk, IsTerminal(e)))
  }

  /** The state the validator is in after a run it accepted. */
  predicate Tracks(v: Validator, events: seq<Event>) {
    v.next == |events| && v.nextChunk == Chunks(events) && v.terminal == Complete(events)
  }

  lemma FitsLonger(ids: Ids, events: seq<Event>, e: Event, i: nat)
    requires i < |events|
    ensures Fits(ids, events + [e], i) <==> Fits(ids, events, i) && !IsTerminal(events[i])
  {
    assert (events + [e])[..i] == events[..i];
  }

  lemma WellFormedLonger(ids: Ids, events: seq<Event>, e: Event)
    requires WellFormed(ids, events)
    ensures WellFormed(ids, events + [e]) <==> FitsAfter(ids, events, e) && !Complete(events)
  {
    var longer, n := events + [e], |events|;
    assert longer[..n] == events && longer[n] == e;
    assert Fits(ids, longer, n) <==> FitsAfter(ids, events, e);
    if Complete(events) {
      FitsLonger(ids, events, e, n - 1);
      assert !Fits(ids, longer, n - 1);
    } else {
      forall i | 0 <= i < n ensures Fits(ids, longer, i) {
        FitsLonger(ids, events, e, i);
        assert Fits(ids, events, i);
      }
    }
  }

  /** The validator accepts an event exactly when the run stays well-formed with it. */
  lemma AcceptIff(v: Validator, events: seq<Event>, e: Event, admits: Event -> bool)
    requires Tracks(v, events) && WellFormed(v.ids, events)
    ensures Accept(v, e, admits).Some? <==> admits(e) && WellFormed(v.ids, events + [e])
    ensures Accept(v, e, admits).Some? ==>
              var w := Accept(v, e, admits).value;
              w.ids == v.ids && Tracks(w, events + [e])
  {
    WellFormedLonger(v.ids, events, e);
    assert (events + [e])[..|events|] == events;
  }

  lemma FirstIsAccepted(ids: Ids, e: Event)
    ensures WellFormed(ids, [e]) ==> e.kind.Accepted?
  {
    if WellFormed(ids, [e]) {
      assert Fits(ids, [e], 0) && [e][..0] == [];
    }
  }

  lemma WellFormedPrefix(ids: Ids, events: seq<Event>, n: nat)
    requires WellFormed(ids, events) && n <= |events|
    ensures WellFormed(ids, events[..n])
  {
    forall i | 0 <= i < n ensures Fits(ids, events[..n], i) {
      assert events[..n][..i] == events[..i] && Fits(ids, events, i);
    }
  }
}
