/** Concurrent `Verify` calls that share one replay guard: every interleaving of
    their checks with the guard's locked calls. */
module VerifyRuns {
  import opened Prelude
  import opened Credential
  import opened Base64Url
  import opened Headers
  import opened Replay
  import opened SignedClaims
  import opened Verifier

  /** Where one request stands. An answered one remembers which of the guard's
      calls was its own. */
  datatype Phase =
    | Waiting
    | Holding(claims: Claims)
    | Turned(status: Status)
    | Answered(owned: Claims, turn: nat, ok: bool)

  datatype Request = Request(header: Header, phase: Phase)

  /** `log` is a history of the guard's calls; the program has only the store. */
  datatype State = State(requests: seq<Request>, store: Store, ghost log: seq<Call>)

  datatype Action = Arrive(header: Header) | CheckAt(r: nat, now: int) | GuardAt(r: nat, later: int)

  /** One step. Every clock reading is arbitrary here; what is known of the clock
      is assumed where it is needed. */
  ghost predicate Step(s: State, a: Action, t: State, rules: Rules) {
    match a
    case Arrive(header) => t == s.(requests := s.requests + [Request(header, Waiting)])
    case CheckAt(r, now) =>
      && r < |s.requests| && s.requests[r].phase == Waiting
      && exists phase: Phase ::
           && t == s.(requests := s.requests[r := s.requests[r].(phase := phase)])
           && (match phase
               case Holding(claims) => rules.passes(s.requests[r].header, now, claims)
               case Turned(status) => rules.denied(s.requests[r].header, now, status)
               case _ => false)
    case GuardAt(r, later) =>
      && r < |s.requests| && s.requests[r].phase.Holding?
      && var claims := s.requests[r].phase.claims;
         var call := CallOf(claims, later);
         var phase := Answered(claims, |s.log|, Answer(s.store, call));
         t == State(s.requests[r := s.requests[r].(phase := phase)], After(s.store, call), s.log + [call])
  }

  const START := State([], map[], [])

  /** A run from the empty verifier. */
  ghost predicate IsRun(states: seq<State>, actions: seq<Action>, rules: Rules) {
    && |states| == |actions| + 1 && states[0] == START
    && forall i :: 0 <= i < |actions| ==> Step(states[i], actions[i], states[i + 1], rules)
  }

  // ----- what every step keeps -----

  ghost predicate Owns(s: State, r: nat, rules: Rules)
    requires r < |s.requests|
  {
    match s.requests[r].phase
    case Waiting => true
    case Holding(claims) => exists now :: rules.passes(s.requests[r].header, now, claims)
    case Turned(status) => exists now :: rules.denied(s.requests[r].header, now, status)
    case Answered(claims, turn, ok) =>
      && (exists now :: rules.passes(s.requests[r].header, now, claims))
      && turn < |s.log| && CallOf(claims, s.log[turn].now) == s.log[turn] && ok == Answers(s.log)[turn]
  }

  ghost predicate Invariant(s: State, rules: Rules) {
    && s.store == StoreAfter(s.log)
    && (forall r :: 0 <= r < |s.requests| ==> Owns(s, r, rules))
    && (forall q: nat, r: nat, k: nat :: Took(s, q, k) && Took(s, r, k) ==> q == r)
    && (forall k :: 0 <= k < |s.log| ==> Taken(s, k))
  }

  predicate Took(s: State, r: nat, k: nat) {
    r < |s.requests| && s.requests[r].phase.Answered? && s.requests[r].phase.turn == k
  }

  ghost predicate Taken(s: State, k: nat) {
    exists r: nat :: Took(s, r, k)
  }

  lemma AnswersLonger(log: seq<Call>, call: Call)
    ensures Answers(log + [call]) == Answers(log) + [Answer(StoreAfter(log), call)]
    ensures StoreAfter(log + [call]) == After(StoreAfter(log), call)
  {
    assert (log + [call])[..|log|] == log;
  }

  lemma GuardOwns(s: State, r: nat, later: int, t: State, rules: Rules, q: nat)
    requires Invariant(s, rules) && Step(s, GuardAt(r, later), t, rules) && q < |s.requests|
    ensures Owns(t, q, rules)
  {
    var claims := s.requests[r].phase.claims;
    var call := CallOf(claims, later);
    AnswersLonger(s.log, call);
    assert Owns(s, q, rules);
    if q == r {
      assert t.requests[q] == s.requests[r].(phase := Answered(claims, |s.log|, Answer(s.store, call)));
      assert t.log[|s.log|] == call && Answers(t.log)[|s.log|] == Answer(s.store, call);
    } else {
      OwnsStill(s, t, call, rules, q);
    }
  }

  /** A request that a longer log leaves alone owns what it owned. */
  lemma OwnsStill(s: State, t: State, call: Call, rules: Rules, q: nat)
    requires q < |s.requests| && q < |t.requests| && t.requests[q] == s.requests[q] && Owns(s, q, rules)
    requires t.log == s.log + [call] && Answers(t.log)[..|s.log|] == Answers(s.log)
    ensures Owns(t, q, rules)
  {
    var phase := s.requests[q].phase;
    if phase.Answered? {
      assert t.log[phase.turn] == s.log[phase.turn];
      assert Answers(t.log)[phase.turn] == Answers(s.log)[phase.turn];
    }
  }

  /** The guard's step takes one turn, its own. */
  lemma GuardTakesOne(s: State, r: nat, later: int, t: State, rules: Rules, q: nat, k: nat)
    requires Invariant(s, rules) && Step(s, GuardAt(r, later), t, rules)
    ensures Took(t, q, k) <==> if k < |s.log| then Took(s, q, k) else q == r && k == |s.log|
  {
    if q < |s.requests| {
      assert Owns(s, q, rules);
      assert q != r ==> t.requests[q] == s.requests[q];
    }
  }

  lemma GuardKeeps(s: State, r: nat, later: int, t: State, rules: Rules)
    requires Invariant(s, rules) && Step(s, GuardAt(r, later), t, rules)
    ensures Invariant(t, rules)
  {
    AnswersLonger(s.log, CallOf(s.requests[r].phase.claims, later));
    forall q | 0 <= q < |t.requests| ensures Owns(t, q, rules) {
      GuardOwns(s, r, later, t, rules, q);
    }
    forall p: nat, q: nat, k: nat | Took(t, p, k) && Took(t, q, k) ensures p == q {
      GuardTakesOne(s, r, later, t, rules, p, k);
      GuardTakesOne(s, r, later, t, rules, q, k);
    }
    forall k | 0 <= k < |t.log| ensures Taken(t, k) {
      var q: nat := r;
      if k < |s.log| {
        assert Taken(s, k);
        q :| Took(s, q, k);
      }
      GuardTakesOne(s, r, later, t, rules, q, k);
      assert Took(t, q, k);
    }
  }

  lemma StepKeeps(s: State, a: Action, t: State, rules: Rules)
    requires Invariant(s, rules) && Step(s, a, t, rules)
    ensures Invariant(t, rules)
  {
    if a.GuardAt? {
      GuardKeeps(s, a.r, a.later, t, rules);
    } else {
      forall q | 0 <= q < |t.requests| ensures Owns(t, q, rules) {
        if q < |s.requests| {
          assert Owns(s, q, rules);
        }
      }
      assert forall q: nat, k: nat :: Took(t, q, k) ==> Took(s, q, k);
      forall k | 0 <= k < |t.log| ensures Taken(t, k) {
        assert Taken(s, k);
        var q: nat :| Took(s, q, k);
        assert Took(t, q, k);
      }
    }
  }

  lemma {:induction false} RunKeeps(states: seq<State>, actions: seq<Action>, rules: Rules, n: nat)
    requires IsRun(states, actions, rules) && n < |states|
    ensures Invariant(states[n], rules)
  {
    if n > 0 {
      RunKeeps(states, actions, rules, n - 1);
      StepKeeps(states[n - 1], actions[n - 1], states[n], rules);
    }
  }

  // ----- what every run guarantees -----

  /** Request `r` has been verified. */
  predicate Admitted(s: State, r: nat) {
    r < |s.requests| && s.requests[r].phase.Answered? && s.requests[r].phase.ok
  }

  ghost function AcceptedAt(s: State, r: nat): int
    requires Admitted(s, r) && s.requests[r].phase.turn < |s.log|
  {
    s.log[s.requests[r].phase.turn].now
  }

  /** However requests interleave, and whichever clock readings the guard's lock
      lets through as long as none is a peak: of two verified requests with one
      JWT id, one was accepted only after the other had expired. */
  lemma VerifiedWindowsDisjoint(states: seq<State>, actions: seq<Action>, rules: Rules, n: nat, q: nat, r: nat)
    requires IsRun(states, actions, rules) && n < |states| && Valley(Clock(states[n].log))
    requires q != r && Admitted(states[n], q) && Admitted(states[n], r)
    requires states[n].requests[q].phase.owned.jwtId == states[n].requests[r].phase.owned.jwtId
    ensures var s := states[n];
            && s.requests[q].phase.turn < |s.log| && s.requests[r].phase.turn < |s.log|
            && (s.requests[q].phase.owned.expiresAt <= AcceptedAt(s, r) < s.requests[r].phase.owned.expiresAt ||
                s.requests[r].phase.owned.expiresAt <= AcceptedAt(s, q) < s.requests[q].phase.owned.expiresAt)
  {
    var s := states[n];
    RunKeeps(states, actions, rules, n);
    assert Owns(s, q, rules) && Owns(s, r, rules);
    assert Took(s, q, s.requests[q].phase.turn) && Took(s, r, s.requests[r].phase.turn);
    var i, j := s.requests[q].phase.turn, s.requests[r].phase.turn;
    if i < j {
      WindowsDisjoint(s.log, i, j);
    } else {
      WindowsDisjoint(s.log, j, i);
    }
  }

  /** No credential is verified twice in any run. */
  lemma VerifiedOnce(states: seq<State>, actions: seq<Action>, rules: Rules, n: nat, q: nat, r: nat)
    requires IsRun(states, actions, rules) && n < |states| && Valley(Clock(states[n].log))
    requires Admitted(states[n], q) && Admitted(states[n], r)
    requires states[n].requests[q].phase.owned.jwtId == states[n].requests[r].phase.owned.jwtId
    requires states[n].requests[q].phase.owned.expiresAt == states[n].requests[r].phase.owned.expiresAt
    ensures q == r
  {
    if q != r {
      VerifiedWindowsDisjoint(states, actions, rules, n, q, r);
    }
  }

  /** One verifier's rules: no two requests whose credentials agree in the bytes
      that were signed are both verified, whatever else of them differs. */
  lemma SignedOnce(states: seq<State>, actions: seq<Action>, config: Config, core: Core, n: nat,
                   q: nat, c: Bytes, r: nat, d: Bytes)
    requires IsRun(states, actions, RulesOf(config, core)) && n < |states| && Valley(Clock(states[n].log))
    requires Admitted(states[n], q) && Presents(states[n].requests[q].header, core.names.authorization, c, core.fold)
    requires Admitted(states[n], r) && Presents(states[n].requests[r].header, core.names.authorization, d, core.fold)
    requires ParseCompact(c).Some? && ParseCompact(d).Some?
    requires ParseCompact(c).value.signed == ParseCompact(d).value.signed
    ensures q == r
  {
    var t := OwnedBy(states, actions, config, core, n, q, c);
    var u := OwnedBy(states, actions, config, core, n, r, d);
    var requests := states[n].requests;
    SignedBytesFixClaims(c, d, config, core, t, u, requests[q].phase.owned, requests[r].phase.owned);
    VerifiedOnce(states, actions, RulesOf(config, core), n, q, r);
  }

  /** A verified request's claims are those its credential passed with. */
  lemma OwnedBy(states: seq<State>, actions: seq<Action>, config: Config, core: Core, n: nat, r: nat, c: Bytes)
    returns (now: int)
    requires IsRun(states, actions, RulesOf(config, core)) && n < |states|
    requires Admitted(states[n], r) && Presents(states[n].requests[r].header, core.names.authorization, c, core.fold)
    ensures NoBreaks(c) && Check(c, config, core, now) == Pass(states[n].requests[r].phase.owned)
  {
    var rules, header := RulesOf(config, core), states[n].requests[r].header;
    RunKeeps(states, actions, rules, n);
    assert Owns(states[n], r, rules);
    now :| rules.passes(header, now, states[n].requests[r].phase.owned);
    assert Passes(header, config, core, now, states[n].requests[r].phase.owned);
    var presented :| Presents(header, core.names.authorization, presented, core.fold)
                     && Check(presented, config, core, now) == Pass(states[n].requests[r].phase.owned);
    PresentsOne(header, core.names.authorization, core.fold, c, presented);
  }

  /** A verified request passed every check at some reading, and the guard that
      never forgets would have let it through as well. */
  lemma VerifiedRightly(states: seq<State>, actions: seq<Action>, rules: Rules, n: nat, r: nat)
    requires IsRun(states, actions, rules) && n < |states| && r < |states[n].requests|
    requires Valley(Clock(states[n].log)) && states[n].requests[r].phase.Answered?
    ensures var s := states[n];
            var phase := s.requests[r].phase;
            && (exists now :: rules.passes(s.requests[r].header, now, phase.owned))
            && phase.turn < |s.log|
            && phase.ok == LedgerAnswers(s.log)[phase.turn]
  {
    var s := states[n];
    RunKeeps(states, actions, rules, n);
    assert Owns(s, r, rules);
    ForgettingIsHarmless(s.log);
  }

  predicate Owned(s: State, r: nat, id: Id, expiry: int)
    requires Admitted(s, r)
  {
    s.requests[r].phase.owned.jwtId == id && s.requests[r].phase.owned.expiresAt == expiry
  }

  /** With a clock that does not go backwards, the guard's map holds exactly the
      verified credentials that were unexpired when it was last read. */
  lemma StoreHoldsTheLiving(states: seq<State>, actions: seq<Action>, rules: Rules, n: nat, id: Id, expiry: int)
    requires IsRun(states, actions, rules) && n < |states|
    requires states[n].log != [] && NonDecreasing(Clock(states[n].log))
    ensures var s := states[n];
            id in s.store && s.store[id] == expiry <==>
            && s.log[|s.log| - 1].now < expiry
            && exists r: nat :: Admitted(s, r) && Owned(s, r, id, expiry)
  {
    var s := states[n];
    RunKeeps(states, actions, rules, n);
    StoreIsLive(s.log, id, expiry);
    if LivesOn(s.log, id, expiry) {
      var k :| 0 <= k < |s.log| && Answers(s.log)[k] && s.log[k].id == id && s.log[k].expiry == expiry;
      assert Taken(s, k);
      var r: nat :| Took(s, r, k);
      assert Owns(s, r, rules);
      assert Admitted(s, r);
    }
    if r: nat :| Admitted(s, r) && Owned(s, r, id, expiry) {
      assert Owns(s, r, rules);
      var k := s.requests[r].phase.turn;
      assert Answers(s.log)[k] && s.log[k].id == id && s.log[k].expiry == expiry;
    }
  }

  // ----- one call is two steps -----

  /** Request `r` has come to its outcome, or comes to it by its guard step. */
  ghost predicate Ends(t: State, r: nat, later: int, outcome: Outcome, after: Store, rules: Rules)
    requires r < |t.requests|
  {
    match outcome
    case Refused(status) => t.requests[r].phase == Turned(status) && t.store == after
    case Verified(claims) =>
      t.requests[r].phase == Holding(claims) &&
      exists u :: Step(t, GuardAt(r, later), u, rules) && u.store == after
                  && u.requests[r].phase == Answered(claims, |t.log|, true)
    case Replayed =>
      t.requests[r].phase.Holding? &&
      exists u :: Step(t, GuardAt(r, later), u, rules) && u.store == after
                  && u.requests[r].phase == Answered(t.requests[r].phase.claims, |t.log|, false)
  }

  lemma HeldThenGuarded(s: State, r: nat, now: int, later: int, claims: Claims, rules: Rules)
    requires r < |s.requests| && s.requests[r].phase == Waiting && rules.passes(s.requests[r].header, now, claims)
    ensures var outcome := if Answer(s.store, CallOf(claims, later)) then Outcome.Verified(claims) else Replayed;
            exists t :: Step(s, CheckAt(r, now), t, rules)
                        && Ends(t, r, later, outcome, After(s.store, CallOf(claims, later)), rules)
  {
    var held := Holding(claims);
    var t := s.(requests := s.requests[r := s.requests[r].(phase := held)]);
    assert Step(s, CheckAt(r, now), t, rules);
    var call := CallOf(claims, later);
    var done := Answered(claims, |t.log|, Answer(t.store, call));
    var u := State(t.requests[r := t.requests[r].(phase := done)], After(t.store, call), t.log + [call]);
    assert Step(t, GuardAt(r, later), u, rules);
  }

  /** A call of `Verify` that nothing interrupts is a check followed, if it
      passes, by the guard's step, and ends in the phase that matches its outcome. */
  lemma CallIsSteps(s: State, r: nat, now: int, later: int, outcome: Outcome, after: Store, rules: Rules)
    requires r < |s.requests| && s.requests[r].phase == Waiting
    requires Served(s.requests[r].header, rules, now, later, outcome, s.store, after)
    ensures exists t :: Step(s, CheckAt(r, now), t, rules) && Ends(t, r, later, outcome, after, rules)
  {
    var header := s.requests[r].header;
    match outcome
    case Refused(status) =>
      var phase := Turned(status);
      var t := s.(requests := s.requests[r := s.requests[r].(phase := phase)]);
      assert Step(s, CheckAt(r, now), t, rules);
    case Verified(claims) =>
      HeldThenGuarded(s, r, now, later, claims, rules);
    case Replayed =>
      var claims :| rules.passes(header, now, claims) && !Answer(s.store, CallOf(claims, later));
      HeldThenGuarded(s, r, now, later, claims, rules);
  }
}
