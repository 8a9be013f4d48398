/** One Runtime instance registered with Nacos: a lease that is written once,
    and what becomes of it under the host's lifecycle. */
module Registration {
  import opened Prelude
  import opened Errors
  import opened Host
  import opened HostRuns
  import opened HostOutcome

  const NO_CONTEXT := Message("Nacos registration context is required")
  const NO_CONTEXT_LEFT := Message("Nacos deregistration context is required")
  const ALREADY_STARTED := Message("Nacos registration has already started")
  const NOT_STARTED := Message("Nacos registration has not started")
  const NO_TERMINAL_ERROR := Message("lease stopped without a terminal error")

  type LeaseId = nat

  /** What the registrar answers to a registration. */
  datatype Published = Published(lease: LeaseId) | Rejected(err: Error)

  /** What is done to the registrar and its leases. */
  datatype Effect = Publishes(lease: LeaseId) | ClosesLease(lease: LeaseId) | ClosesRegistrar

  /** What the select of `Run` finds: the context over, or the lease ended. */
  datatype Finding = ContextOver | LeaseEnded(err: Option<Error>)

  /** The state of a registration, as a value. */
  datatype Held = Held(lease: Option<LeaseId>, effects: seq<Effect>)

  const UNUSED := Held(None, [])

  function RegisterOf(r: Held, hasContext: bool, answer: Published): (Held, Option<Error>) {
    if !hasContext then (r, Some(NO_CONTEXT))
    else if r.lease.Some? then (r, Some(ALREADY_STARTED))
    else match answer
      case Rejected(e) => (r, Some(Wrapped("register runtime with Nacos", e)))
      case Published(l) => (Held(Some(l), r.effects + [Publishes(l)]), None)
  }

  function RunOf(r: Held, hasContext: bool, finding: Finding): Option<Error> {
    if !hasContext then Some(NO_CONTEXT)
    else if r.lease.None? then Some(NOT_STARTED)
    else match finding
      case ContextOver => None
      case LeaseEnded(e) =>
        Some(Wrapped("Nacos registration lease terminated", if e.Some? then e.value else NO_TERMINAL_ERROR))
  }

  function DeregisterOf(r: Held, hasContext: bool, leaseErr: Option<Error>, registrarErr: Option<Error>)
    : (Held, Option<Error>)
  {
    if !hasContext then (r, Some(NO_CONTEXT_LEFT))
    else (r.(effects := r.effects + Closing(r.lease)), Join(if r.lease.Some? then leaseErr else None, registrarErr))
  }

  class Registration {
    var lease: Option<LeaseId>
    ghost var effects: seq<Effect>

    ghost predicate Valid()
      reads this
    {
      OneLease(lease, effects)
    }

    ghost function Value(): Held
      reads this
    {
      Held(lease, effects)
    }

    constructor ()
      ensures Value() == UNUSED
      ensures Valid() && lease == None && effects == []
    {
      lease, effects := None, [];
    }

    /** `answer` is what the registrar says, if it is asked. */
    method Register(hasContext: bool, answer: Published) returns (err: Option<Error>)
      requires Valid()
      modifies this
      ensures Valid() && (Value(), err) == RegisterOf(old(Value()), hasContext, answer)
      ensures err.None? <==> hasContext && old(lease).None? && answer.Published?
      ensures err.None? ==> lease == Some(answer.lease) && effects == old(effects) + [Publishes(answer.lease)]
      ensures err.Some? ==> lease == old(lease) && effects == old(effects)
      ensures hasContext && old(lease).None? && answer.Rejected? ==> Is(err.value, answer.err)
    {
      if !hasContext {
        return Some(NO_CONTEXT);
      }
      if lease.Some? {
        return Some(ALREADY_STARTED);
      }
      match answer
      case Rejected(e) => return Some(Wrapped("register runtime with Nacos", e));
      case Published(l) =>
        lease, effects := Some(l), effects + [Publishes(l)];
        return None;
    }

    method Run(hasContext: bool, finding: Finding) returns (err: Option<Error>)
      requires Valid()
      ensures err == RunOf(Value(), hasContext, finding)
      ensures err.None? <==> hasContext && lease.Some? && finding.ContextOver?
      ensures hasContext && lease.Some? && finding.LeaseEnded? ==>
                Is(err.value, if finding.err.Some? then finding.err.value else NO_TERMINAL_ERROR)
    {
      if !hasContext {
        return Some(NO_CONTEXT);
      }
      if lease.None? {
        return Some(NOT_STARTED);
      }
      match finding
      case ContextOver => return None;
      case LeaseEnded(e) =>
        var cause := if e.Some? then e.value else NO_TERMINAL_ERROR;
        return Some(Wrapped("Nacos registration lease terminated", cause));
    }

    /** `leaseErr` and `registrarErr` are what closing the lease and the registrar
        returns, if they are closed. */
    method Deregister(hasContext: bool, leaseErr: Option<Error>, registrarErr: Option<Error>)
      returns (err: Option<Error>)
      requires Valid()
      modifies this`effects
      ensures Valid() && lease == old(lease)
      ensures (Value(), err) == DeregisterOf(old(Value()), hasContext, leaseErr, registrarErr)
      ensures effects == if hasContext then old(effects) + Closing(lease) else old(effects)
      ensures err.None? <==> hasContext && (lease.None? || leaseErr.None?) && registrarErr.None?
      ensures hasContext && lease.Some? && leaseErr.Some? ==> Is(err.value, leaseErr.value)
      ensures hasContext && registrarErr.Some? ==> Is(err.value, registrarErr.value)
    {
      if !hasContext {
        return Some(NO_CONTEXT_LEFT);
      }
      var closed: Option<Error> := None;
      if lease.Some? {
        closed := leaseErr;
        effects := effects + [ClosesLease(lease.value)];
      }
      effects := effects + [ClosesRegistrar];
      assert effects == old(effects) + Closing(lease);
      return Join(closed, registrarErr);
    }

    /** `over` says which leases have ended. */
    method Ready(over: LeaseId -> bool) returns (ready: bool)
      requires Valid()
      ensures ready <==> exists l: LeaseId :: Publishes(l) in effects && !over(l)
    {
      if lease.None? {
        return false;
      }
      return !over(lease.value);
    }
  }

  function Closing(lease: Option<LeaseId>): seq<Effect> {
    if lease.None? then [ClosesRegistrar] else [ClosesLease(lease.value), ClosesRegistrar]
  }

  /** At most one lease is ever published; only that one is ever closed. */
  ghost predicate OneLease(lease: Option<LeaseId>, effects: seq<Effect>) {
    && (forall l: LeaseId :: Publishes(l) in effects <==> lease == Some(l))
    && (forall l: LeaseId :: ClosesLease(l) in effects ==> lease == Some(l))
    && (forall i, j :: 0 <= i < j < |effects| ==> !(effects[i].Publishes? && effects[j].Publishes?))
  }

  // ----- the host's calls on the object -----

  /** A new registration after the host's calls, if its registrar publishes
      `lease` where a call is to succeed and else refuses. */
  function HeldAfter(calls: seq<Call>, lease: LeaseId, refusal: Error): Held {
    if calls == [] then UNUSED
    else
      var before := HeldAfter(calls[..|calls| - 1], lease, refusal);
      match calls[|calls| - 1]
      case RegisterCall(ok) => RegisterOf(before, true, if ok then Published(lease) else Rejected(refusal)).0
      case DeregisterCall => DeregisterOf(before, true, None, None).0
      case ShutdownCall => before
  }

  /** Plays the calls of a host on a new registration. */
  method PlayCalls(calls: seq<Call>, lease: LeaseId, refusal: Error, leaseErr: Option<Error>,
                   registrarErr: Option<Error>)
    returns (ghost effects: seq<Effect>, published: bool)
    ensures effects == HeldAfter(calls, lease, refusal).effects
    ensures published <==> HeldAfter(calls, lease, refusal).lease.Some?
  {
    var r := new Registration();
    for i := 0 to |calls|
      invariant r.Valid() && fresh(r) && r.Value() == HeldAfter(calls[..i], lease, refusal)
    {
      assert calls[..i + 1][..i] == calls[..i];
      match calls[i]
      case RegisterCall(ok) =>
        var _ := r.Register(true, if ok then Published(lease) else Rejected(refusal));
      case DeregisterCall =>
        var _ := r.Deregister(true, leaseErr, registrarErr);
      case ShutdownCall =>
    }
    assert calls[..|calls|] == calls;
    effects, published := r.effects, r.lease.Some?;
  }

  /** When the host's `Run` has returned, a published lease has been closed once,
      and the registrar with it; where nothing was published nothing was closed. */
  lemma HostClosesItsLease(managed: bool, labels: seq<Label>, lease: LeaseId, refusal: Error)
    requires Host.Run(managed, labels).Some? && Host.Run(managed, labels).value.pc.Done?
    ensures HeldAfter(Calls(labels), lease, refusal).effects ==
            if RegisterCall(true) in Calls(labels) then [Publishes(lease), ClosesLease(lease), ClosesRegistrar] else []
  {
    var calls := Calls(labels);
    RunCalls(managed, labels);
    DeregisterProtocol(managed, labels);
    if RegisterCall(true) in calls {
      FullEffects(calls, lease, refusal);
    } else if calls != [] {
      NoEffect(calls, lease, refusal);
    }
  }

  lemma FullEffects(calls: seq<Call>, lease: LeaseId, refusal: Error)
    requires calls == [RegisterCall(true), ShutdownCall, DeregisterCall]
    ensures HeldAfter(calls, lease, refusal).effects == [Publishes(lease), ClosesLease(lease), ClosesRegistrar]
  {
    var two := calls[..2];
    var one := two[..1];
    var held := Held(Some(lease), [Publishes(lease)]);
    assert two == [RegisterCall(true), ShutdownCall] && one == [RegisterCall(true)] && one[..0] == [];
    assert HeldAfter(one, lease, refusal) == held && HeldAfter(two, lease, refusal) == held;
  }

  lemma NoEffect(calls: seq<Call>, lease: LeaseId, refusal: Error)
    requires |calls| == 1 && calls[0] != RegisterCall(true) && !calls[0].DeregisterCall?
    ensures HeldAfter(calls, lease, refusal).effects == []
  {
    assert calls[..0] == [];
  }

  // ----- host and registration as one machine -----

  datatype Managed = Managed(host: State, held: Held)

  /** A step of the host in which what `Register`, `Run` and `Deregister` return
      is what this registration answers. Its `Run` may find the context over only
      when it is. */
  ghost predicate Together(c: Managed, l: Label, d: Managed) {
    Next(c.host, l) == Some(d.host) &&
    match l
    case Registered(err) => exists answer :: (d.held, err) == RegisterOf(c.held, true, answer)
    case CallReturned(Lease, err) => d.held == c.held && MayReturn(c, err)
    case Deregistered(err) =>
      exists leaseErr, registrarErr :: (d.held, err) == DeregisterOf(c.held, true, leaseErr, registrarErr)
    case _ => d.held == c.held
  }

  ghost predicate MayReturn(c: Managed, err: Option<Error>) {
    exists finding: Finding :: (finding.ContextOver? ==> !Live(c.host)) && err == RunOf(c.held, true, finding)
  }

  ghost predicate IsRun(states: seq<Managed>, labels: seq<Label>) {
    && |states| == |labels| + 1 && states[0] == Managed(Start(true), UNUSED)
    && forall i :: 0 <= i < |labels| ==> Together(states[i], labels[i], states[i + 1])
  }

  /** What is held and what was done, wherever the host stands. */
  predicate HeldAt(s: State, held: Held) {
    if PcRank(s.pc) >= 11 || (s.pc.Done? && !s.cancelled) then held == UNUSED
    else if held.lease.None? then false
    else held.effects == [Publishes(held.lease.value)] + (if s.pc.Done? then Closing(held.lease) else [])
  }

  lemma OtherSteps(s: State, l: Label, held: Held)
    requires Calm(s) && s.managed && Next(s, l).Some? && !l.Registered? && !l.Deregistered?
    requires HeldAt(s, held)
    ensures HeldAt(Next(s, l).value, held)
  {
    if IsWorldly(l) {
      WorldFalls(s, l);
      FlagOfWorld(s, l);
    } else {
      PcFalls(s, l);
      OtherAdvance(s, l);
    }
  }

  lemma FlagOfWorld(s: State, l: Label)
    requires World(s, l).Some?
    ensures World(s, l).value.cancelled == s.cancelled
  {
  }

  lemma OtherAdvance(s: State, l: Label)
    requires Calm(s) && s.managed && Advance(s, l).Some? && !l.Registered? && !l.Deregistered?
    ensures var pc := Advance(s, l).value;
            && (PcRank(s.pc) >= 11 ==> PcRank(pc) >= 11 || pc.Done?)
            && (PcRank(s.pc) < 11 ==> !pc.Done?)
            && (pc.Done? ==> !Host.Effect(s, l).cancelled)
  {
  }

  lemma TogetherKeeps(c: Managed, l: Label, d: Managed)
    requires Calm(c.host) && c.host.managed && HeldAt(c.host, c.held) && Together(c, l, d)
    ensures HeldAt(d.host, d.held)
  {
    match l
    case Registered(err) => assert c.host.pc.Registering?;
    case Deregistered(err) => assert c.host.pc.Deregistering?;
    case _ => OtherSteps(c.host, l, c.held);
  }

  lemma {:induction false} RunTogether(states: seq<Managed>, labels: seq<Label>, n: nat)
    requires IsRun(states, labels) && n < |states|
    ensures Host.Run(true, labels[..n]) == Some(states[n].host)
    ensures Calm(states[n].host) && states[n].host.managed && HeldAt(states[n].host, states[n].held)
  {
    if n > 0 {
      RunTogether(states, labels, n - 1);
      assert labels[..n][..n - 1] == labels[..n - 1];
      assert Together(states[n - 1], labels[n - 1], states[n]);
      RunIsSound(true, labels[..n]);
      TogetherKeeps(states[n - 1], labels[n - 1], states[n]);
    }
  }

  /** In every run of the two together: once the host has returned, the lease it
      published, if any, has been closed exactly once, and the registrar behind it. */
  lemma LeaseIsClosed(states: seq<Managed>, labels: seq<Label>)
    requires IsRun(states, labels) && states[|labels|].host.pc.Done?
    ensures var held := states[|labels|].held;
            held.effects == if held.lease.None? then []
                            else [Publishes(held.lease.value), ClosesLease(held.lease.value), ClosesRegistrar]
  {
    RunTogether(states, labels, |labels|);
  }

  /** While the lease goroutine runs, there is a lease: `Run` never finds that the
      registration has not started. */
  lemma LeaseIsThere(states: seq<Managed>, labels: seq<Label>, n: nat)
    requires IsRun(states, labels) && n < |states| && states[n].host.lease.routine.Running?
    ensures states[n].held.lease.Some?
  {
    RunTogether(states, labels, n);
  }

  lemma ContextIsOverIff(managed: bool, labels: seq<Label>)
    requires Host.Run(managed, labels).Some?
    ensures Live(Host.Run(managed, labels).value) <==> Ended !in labels && Cancelled !in labels
  {
    RunEndedOutside(managed, labels);
  }

  /** In every run of the two together the running lease may return nil exactly once
      the context has been ended from outside or `Run` has cancelled it. */
  lemma LeaseMayReturnIff(states: seq<Managed>, labels: seq<Label>)
    requires IsRun(states, labels) && states[|labels|].host.lease.routine.Running?
    ensures (exists d :: Together(states[|labels|], CallReturned(Lease, None), d)) <==>
            Ended in labels || Cancelled in labels
  {
    var c := states[|labels|];
    RunTogether(states, labels, |labels|);
    assert labels[..|labels|] == labels;
    ContextIsOverIff(true, labels);
    if !Live(c.host) {
      var d := Managed(Next(c.host, CallReturned(Lease, None)).value, c.held);
      assert RunOf(c.held, true, ContextOver) == None;
      assert Together(c, CallReturned(Lease, None), d);
    }
    forall d | Together(c, CallReturned(Lease, None), d) ensures !Live(c.host) {
      TogetherIsNacos(c, CallReturned(Lease, None), d);
    }
  }

  // ----- no early stop -----

  /** The host's steps when its lease goroutine returns nil only once the context is over. */
  function NextWithNacos(s: State, l: Label): Option<State> {
    if l == CallReturned(Lease, None) && Live(s) then None else Next(s, l)
  }

  predicate NilMeansOver(s: State, past: seq<Label>) {
    && (s.lease.routine == Returned(None) || s.lease.slot == Some(None) || s.pc == FirstRead(Lease) ==> !Live(s))
    && ReadNil(Lease, true) !in past
  }

  lemma NilMeansOverWorld(s: State, l: Label)
    requires World(s, l).Some? && NilMeansOver(s, []) && !(l == CallReturned(Lease, None) && Live(s))
    ensures NilMeansOver(World(s, l).value, [])
  {
  }

  lemma NilMeansOverAdvance(s: State, l: Label)
    requires Advance(s, l).Some? && NilMeansOver(s, [])
    ensures NilMeansOver(Host.Effect(s, l).(pc := Advance(s, l).value), []) && l != ReadNil(Lease, true)
  {
  }

  lemma NilMeansOverStep(s: State, l: Label, past: seq<Label>)
    requires NextWithNacos(s, l).Some? && NilMeansOver(s, past)
    ensures NilMeansOver(NextWithNacos(s, l).value, past + [l])
  {
    if IsWorldly(l) {
      NilMeansOverWorld(s, l);
    } else {
      NilMeansOverAdvance(s, l);
    }
  }

  /** A Nacos lease never looks to the host as if it had stopped early without an error. */
  lemma NeverStopsEarly(managed: bool, labels: seq<Label>)
    requires Play(NextWithNacos, Start(managed), labels).Some?
    ensures ReadNil(Lease, true) !in labels
  {
    var claim: Claim := (s, past) => NilMeansOver(s, past);
    forall s, past, l | claim(s, past) && NextWithNacos(s, l).Some?
      ensures claim(NextWithNacos(s, l).value, past + [l])
    {
      NilMeansOverStep(s, l, past);
    }
    Always(NextWithNacos, Start(managed), labels, claim);
  }

  /** Whatever this registration's `Run` may return is such a step, and so is any
      other step of the two together. */
  lemma TogetherIsNacos(c: Managed, l: Label, d: Managed)
    requires Together(c, l, d)
    ensures NextWithNacos(c.host, l) == Some(d.host)
  {
    if l == CallReturned(Lease, None) {
      assert MayReturn(c, None);
    }
  }

  lemma {:induction false} TogetherPlays(states: seq<Managed>, labels: seq<Label>, n: nat)
    requires IsRun(states, labels) && n < |states|
    ensures Play(NextWithNacos, Start(true), labels[..n]) == Some(states[n].host)
  {
    if n > 0 {
      TogetherPlays(states, labels, n - 1);
      assert labels[..n][..n - 1] == labels[..n - 1];
      TogetherIsNacos(states[n - 1], labels[n - 1], states[n]);
    }
  }

  /** In every run of host and registration together the lease never looks as if
      it had stopped early without an error. */
  lemma TogetherNeverStopsEarly(states: seq<Managed>, labels: seq<Label>)
    requires IsRun(states, labels)
    ensures ReadNil(Lease, true) !in labels
  {
    TogetherPlays(states, labels, |labels|);
    assert labels[..|labels|] == labels;
    NeverStopsEarly(true, labels);
  }
}
