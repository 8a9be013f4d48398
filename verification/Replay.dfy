/** The pruning replay guard, and exactly when it answers like a guard that
    never forgets. */
module Replay {
  import opened Prelude

  type Id = Bytes

  /** One call of `Accept`: the clock reading it takes under the lock, and the
      credential's identifier and expiry. */
  datatype Call = Call(now: int, id: Id, expiry: int)

  type Store = map<Id, int>

  // ----- the pruning guard -----

  function Prune(store: Store, now: int): Store {
    map id | id in store && now < store[id] :: store[id]
  }

  function Answer(store: Store, c: Call): bool {
    c.now < c.expiry && c.id !in Prune(store, c.now)
  }

  function After(store: Store, c: Call): Store {
    var live := Prune(store, c.now);
    if Answer(store, c) then live[c.id := c.expiry] else live
  }

  class ReplayGuard {
    var expires: map<Id, int>

    constructor ()
      ensures expires == map[]
    {
      expires := map[];
    }

    /** `Accept`. The deletion loop visits the entries in any order. */
    method Accept(now: int, id: Id, expiry: int) returns (ok: bool)
      modifies this
      ensures ok == Answer(old(expires), Call(now, id, expiry))
      ensures expires == After(old(expires), Call(now, id, expiry))
      ensures forall e :: e in expires ==> now < expires[e]
    {
      var left := expires.Keys;
      while left != {}
        invariant left <= expires.Keys
        invariant expires.Keys <= old(expires).Keys
        invariant forall e :: e in old(expires) ==>
                    (e in expires <==> e in left || now < old(expires)[e])
        invariant forall e :: e in expires ==> expires[e] == old(expires)[e]
        decreases left
      {
        var e :| e in left;
        left := left - {e};
        if now >= expires[e] {
          expires := expires - {e};
        }
      }
      assert expires == Prune(old(expires), now);
      if now >= expiry {
        return false;
      }
      if id in expires && now < expires[id] {
        return false;
      }
      expires := expires[id := expiry];
      return true;
    }
  }

  // ----- runs -----

  function StoreAfter(calls: seq<Call>): Store {
    if calls == [] then map[]
    else After(StoreAfter(calls[..|calls| - 1]), calls[|calls| - 1])
  }

  function Answers(calls: seq<Call>): (r: seq<bool>)
    ensures |r| == |calls|
  {
    if calls == [] then []
    else
      var n := |calls| - 1;
      Answers(calls[..n]) + [Answer(StoreAfter(calls[..n]), calls[n])]
  }

  /** Whether an earlier accepted presentation of the same id is still unexpired
      for call `n`, going by everything that was ever accepted. */
  predicate Spent(calls: seq<Call>, answers: seq<bool>, n: nat)
    requires n < |calls| && n <= |answers|
  {
    exists i :: 0 <= i < n && answers[i] && calls[i].id == calls[n].id && calls[n].now < calls[i].expiry
  }

  /** The guard that never forgets. */
  function LedgerAnswers(calls: seq<Call>): (r: seq<bool>)
    ensures |r| == |calls|
  {
    if calls == [] then []
    else
      var n := |calls| - 1;
      var r := LedgerAnswers(calls[..n]);
      r + [calls[n].now < calls[n].expiry && !Spent(calls, r, n)]
  }

  // ----- the clock -----

  function Clock(calls: seq<Call>): seq<int> {
    seq(|calls|, i requires 0 <= i < |calls| => calls[i].now)
  }

  /** No reading is higher than both an earlier and a later one. */
  predicate Valley(clock: seq<int>) {
    forall i, j, k :: 0 <= i < j < k < |clock| ==> clock[j] <= clock[i] || clock[j] <= clock[k]
  }

  predicate NonDecreasing(clock: seq<int>) {
    forall i, j :: 0 <= i < j < |clock| ==> clock[i] <= clock[j]
  }

  lemma NonDecreasingIsValley(clock: seq<int>)
    requires NonDecreasing(clock)
    ensures Valley(clock)
  {
  }

  // ----- forgetting is harmless -----

  /** Entry `i` was accepted, and its deadline has been read since. */
  predicate Passed(calls: seq<Call>, i: nat, n: nat)
    requires i < n <= |calls|
  {
    exists j :: i < j < n && calls[j].now >= calls[i].expiry
  }

  /** The store holds every accepted entry whose deadline no later reading has
      passed, and nothing that was not accepted. */
  ghost predicate Remembers(calls: seq<Call>) {
    var store, answers := StoreAfter(calls), Answers(calls);
    && (forall i :: 0 <= i < |calls| && answers[i] ==>
          (calls[i].id in store && store[calls[i].id] == calls[i].expiry) || Passed(calls, i, |calls|))
    && (forall id :: id in store ==>
          exists i :: 0 <= i < |calls| && answers[i] && calls[i].id == id && calls[i].expiry == store[id])
  }

  lemma RemembersStep(calls: seq<Call>)
    requires calls != [] && Remembers(calls[..|calls| - 1])
    ensures Remembers(calls)
  {
    var n := |calls| - 1;
    var before := calls[..n];
    var old_, new_ := StoreAfter(before), StoreAfter(calls);
    var answers := Answers(calls);
    assert answers[..n] == Answers(before);
    forall i | 0 <= i < |calls| && answers[i]
      ensures (calls[i].id in new_ && new_[calls[i].id] == calls[i].expiry) || Passed(calls, i, n + 1)
    {
      if i < n {
        assert before[i] == calls[i] && Answers(before)[i] == answers[i];
        if Passed(before, i, n) {
          var j :| i < j < n && before[j].now >= before[i].expiry;
          assert calls[j].now >= calls[i].expiry;
        } else {
          assert calls[i].id in old_ && old_[calls[i].id] == calls[i].expiry;
          if calls[n].now >= calls[i].expiry {
            assert Passed(calls, i, n + 1);
          }
        }
      }
    }
    forall id | id in new_
      ensures exists i :: 0 <= i < |calls| && answers[i] && calls[i].id == id && calls[i].expiry == new_[id]
    {
      if answers[n] && id == calls[n].id {
        assert calls[n].expiry == new_[id];
      } else {
        var i :| 0 <= i < |before| && Answers(before)[i] && before[i].id == id && before[i].expiry == old_[id];
        assert calls[i] == before[i] && answers[i] == Answers(before)[i];
      }
    }
  }

  lemma {:induction false} RemembersAlways(calls: seq<Call>)
    ensures Remembers(calls)
  {
    if calls != [] {
      RemembersAlways(calls[..|calls| - 1]);
      RemembersStep(calls);
    }
  }

  /** Over a valley, an expiry that lies ahead has not been read before. */
  lemma StillAhead(calls: seq<Call>, i: nat, n: nat)
    requires i < n < |calls| && Valley(Clock(calls))
    requires calls[i].now < calls[i].expiry && calls[n].now < calls[i].expiry
    ensures !Passed(calls, i, n)
  {
    var clock := Clock(calls);
    forall j | i < j < n ensures calls[j].now < calls[i].expiry {
      assert clock[j] <= clock[i] || clock[j] <= clock[n];
    }
  }

  /** Over a valley, the pruned store knows of every id the ledger holds spent. */
  lemma StoreKnows(calls: seq<Call>, n: nat)
    requires n < |calls| && Valley(Clock(calls))
    ensures calls[n].id in Prune(StoreAfter(calls[..n]), calls[n].now) <==> Spent(calls, Answers(calls[..n]), n)
  {
    var before := calls[..n];
    var store, answers := StoreAfter(before), Answers(before);
    RemembersAlways(before);
    if Spent(calls, answers, n) {
      var i :| 0 <= i < n && answers[i] && calls[i].id == calls[n].id && calls[n].now < calls[i].expiry;
      AcceptedInTime(before, i);
      StillAhead(calls, i, n);
      assert !Passed(before, i, n);
    }
    if calls[n].id in Prune(store, calls[n].now) {
      var i :| 0 <= i < n && answers[i] && before[i].id == calls[n].id && before[i].expiry == store[calls[n].id];
      assert before[i] == calls[i];
    }
  }

  lemma {:induction false} AcceptedInTime(calls: seq<Call>, i: nat)
    requires i < |calls| && Answers(calls)[i]
    ensures calls[i].now < calls[i].expiry
  {
    var n := |calls| - 1;
    if i < n {
      assert calls[..n][i] == calls[i] && Answers(calls)[i] == Answers(calls[..n])[i];
      AcceptedInTime(calls[..n], i);
    }
  }

  lemma ValleyPrefix(calls: seq<Call>, n: nat)
    requires n <= |calls| && Valley(Clock(calls))
    ensures Valley(Clock(calls[..n]))
  {
    var clock, shorter := Clock(calls), Clock(calls[..n]);
    assert forall i :: 0 <= i < n ==> shorter[i] == clock[i];
  }

  /** While the clock reads a valley, the guard that prunes gives every answer the
      guard that never forgets would give. */
  lemma {:induction false} ForgettingIsHarmless(calls: seq<Call>)
    requires Valley(Clock(calls))
    ensures Answers(calls) == LedgerAnswers(calls)
  {
    if calls != [] {
      var n := |calls| - 1;
      ValleyPrefix(calls, n);
      ForgettingIsHarmless(calls[..n]);
      StoreKnows(calls, n);
    }
  }

  // ----- windows -----

  lemma {:induction false} LedgerWindows(calls: seq<Call>, i: nat, j: nat)
    requires i < j < |calls| && calls[i].id == calls[j].id
    requires LedgerAnswers(calls)[i] && LedgerAnswers(calls)[j]
    ensures calls[i].expiry <= calls[j].now < calls[j].expiry
  {
    var n := |calls| - 1;
    var r := LedgerAnswers(calls[..n]);
    assert forall m :: 0 <= m < n ==> LedgerAnswers(calls)[m] == r[m];
    if j < n {
      assert calls[..n][i] == calls[i] && calls[..n][j] == calls[j];
      LedgerWindows(calls[..n], i, j);
    } else {
      assert !Spent(calls, r, n);
    }
  }

  /** Successive acceptances of one id have disjoint windows [now, expiry): the
      later one starts when the earlier one is over. */
  lemma WindowsDisjoint(calls: seq<Call>, i: nat, j: nat)
    requires Valley(Clock(calls)) && i < j < |calls| && calls[i].id == calls[j].id
    requires Answers(calls)[i] && Answers(calls)[j]
    ensures calls[i].expiry <= calls[j].now < calls[j].expiry
  {
    ForgettingIsHarmless(calls);
    LedgerWindows(calls, i, j);
  }

  // ----- the exact condition on the clock -----

  /** Over this clock, no credential is accepted twice, whatever is presented. */
  ghost predicate AtMostOnce(clock: seq<int>) {
    forall calls: seq<Call>, i, j |
      && Clock(calls) == clock && 0 <= i < j < |calls|
      && calls[i].id == calls[j].id && calls[i].expiry == calls[j].expiry ::
      !(Answers(calls)[i] && Answers(calls)[j])
  }

  /** Over this clock, pruning changes no answer, whatever is presented. */
  ghost predicate PruningUnnoticed(clock: seq<int>) {
    forall calls: seq<Call> | Clock(calls) == clock :: Answers(calls) == LedgerAnswers(calls)
  }

  /** What breaks the guard over a peak: one credential presented before it and
      again behind it, and only expired ones in between. */
  function PeakCall(clock: seq<int>, i: nat, j: nat, k: nat, m: nat): Call
    requires i < j < k < |clock| && m < |clock|
  {
    if m == i || m == k then Call(clock[m], "a", clock[j]) else Call(clock[m], "b", clock[m])
  }

  function PeakCalls(clock: seq<int>, i: nat, j: nat, k: nat): (calls: seq<Call>)
    requires i < j < k < |clock|
    ensures |calls| == |clock|
  {
    seq(|clock|, m requires 0 <= m < |clock| => PeakCall(clock, i, j, k, m))
  }

  lemma PeakClock(clock: seq<int>, i: nat, j: nat, k: nat)
    requires i < j < k < |clock|
    ensures Clock(PeakCalls(clock, i, j, k)) == clock
  {
  }

  /** Before the first presentation the store is empty; from the peak on it is again. */
  lemma {:induction false} PeakStore(clock: seq<int>, i: nat, j: nat, k: nat, n: nat)
    requires i < j < k < |clock| && clock[i] < clock[j] && n <= k
    ensures HoldsPeakOnly(StoreAfter(PeakCalls(clock, i, j, k)[..n]), clock, i, j, n)
  {
    var calls := PeakCalls(clock, i, j, k);
    if n > 0 {
      var m := n - 1;
      PeakStore(clock, i, j, k, m);
      assert calls[..n][..m] == calls[..m] && calls[..n][m] == calls[m];
      assert StoreAfter(calls[..n]) == After(StoreAfter(calls[..m]), calls[m]);
      PeakTurn(StoreAfter(calls[..m]), clock, i, j, k, m);
    }
  }

  predicate HoldsPeakOnly(store: Store, clock: seq<int>, i: nat, j: nat, n: nat)
    requires i < j < |clock|
  {
    && (n <= i || j < n ==> store == map[])
    && (forall id :: id in store ==> id == "a" && store[id] == clock[j])
  }

  lemma PeakTurn(store: Store, clock: seq<int>, i: nat, j: nat, k: nat, m: nat)
    requires i < j < k < |clock| && clock[i] < clock[j] && m < k
    requires HoldsPeakOnly(store, clock, i, j, m)
    ensures HoldsPeakOnly(After(store, PeakCall(clock, i, j, k, m)), clock, i, j, m + 1)
  {
    var call := PeakCall(clock, i, j, k, m);
    var live := Prune(store, call.now);
    if m != i {
      assert After(store, call) == live;
      if m == j {
        assert live == map[];
      }
    }
  }

  lemma {:induction false} AnswerAt(calls: seq<Call>, n: nat)
    requires n < |calls|
    ensures Answers(calls)[n] == Answer(StoreAfter(calls[..n]), calls[n])
    decreases |calls|
  {
    var m := |calls| - 1;
    assert Answers(calls) == Answers(calls[..m]) + [Answer(StoreAfter(calls[..m]), calls[m])];
    if n < m {
      AnswerAt(calls[..m], n);
      assert calls[..m][..n] == calls[..n] && calls[..m][n] == calls[n];
    }
  }

  lemma PeakAcceptsTwice(clock: seq<int>, i: nat, j: nat, k: nat)
    requires i < j < k < |clock| && clock[i] < clock[j] && clock[k] < clock[j]
    ensures var calls := PeakCalls(clock, i, j, k);
            && Clock(calls) == clock && calls[i].id == calls[k].id && calls[i].expiry == calls[k].expiry
            && Answers(calls)[i] && Answers(calls)[k]
  {
    var calls := PeakCalls(clock, i, j, k);
    PeakClock(clock, i, j, k);
    PeakStore(clock, i, j, k, i);
    PeakStore(clock, i, j, k, k);
    AnswerAt(calls, i);
    AnswerAt(calls, k);
    assert calls[i] == PeakCall(clock, i, j, k, i) && calls[k] == PeakCall(clock, i, j, k, k);
  }

  /** The guard works exactly over the clocks that read a valley: there it answers
      like one that never forgets and accepts no credential twice, and over any
      other sequence of readings some presentations show neither is so. */
  lemma ClockCondition(clock: seq<int>)
    ensures PruningUnnoticed(clock) <==> Valley(clock)
    ensures AtMostOnce(clock) <==> Valley(clock)
  {
    if Valley(clock) {
      forall calls: seq<Call> | Clock(calls) == clock ensures Answers(calls) == LedgerAnswers(calls) {
        ForgettingIsHarmless(calls);
      }
      forall calls: seq<Call>, i, j |
        && Clock(calls) == clock && 0 <= i < j < |calls|
        && calls[i].id == calls[j].id && calls[i].expiry == calls[j].expiry
        ensures !(Answers(calls)[i] && Answers(calls)[j])
      {
        if Answers(calls)[i] && Answers(calls)[j] {
          WindowsDisjoint(calls, i, j);
        }
      }
    } else {
      var i, j, k :| 0 <= i < j < k < |clock| && !(clock[j] <= clock[i] || clock[j] <= clock[k]);
      PeakAcceptsTwice(clock, i, j, k);
      var calls := PeakCalls(clock, i, j, k);
      if Answers(calls) == LedgerAnswers(calls) {
        LedgerWindows(calls, i, k);
      }
    }
  }

  // ----- what the store holds -----

  /** Everything in the store expires after the last reading. */
  lemma StoreUnexpired(calls: seq<Call>)
    requires calls != []
    ensures forall id :: id in StoreAfter(calls) ==> calls[|calls| - 1].now < StoreAfter(calls)[id]
  {
  }

  /** Whether `id` was accepted with this expiry and is unexpired at the last reading. */
  predicate LivesOn(calls: seq<Call>, id: Id, expiry: int) {
    calls != [] && calls[|calls| - 1].now < expiry &&
    exists i :: 0 <= i < |calls| && Answers(calls)[i] && calls[i].id == id && calls[i].expiry == expiry
  }

  lemma NotYetPassed(calls: seq<Call>, i: nat)
    requires i < |calls| && NonDecreasing(Clock(calls)) && calls[|calls| - 1].now < calls[i].expiry
    ensures !Passed(calls, i, |calls|)
  {
    var clock, n := Clock(calls), |calls| - 1;
    forall j | i < j < |calls| ensures calls[j].now < calls[i].expiry {
      if j < n {
        assert clock[j] <= clock[n];
      }
    }
  }

  lemma LivingIsStored(calls: seq<Call>, i: nat)
    requires i < |calls| && NonDecreasing(Clock(calls))
    requires Answers(calls)[i] && calls[|calls| - 1].now < calls[i].expiry
    ensures calls[i].id in StoreAfter(calls) && StoreAfter(calls)[calls[i].id] == calls[i].expiry
  {
    RemembersAlways(calls);
    NotYetPassed(calls, i);
  }

  /** With a clock that does not go backwards, the store holds exactly the
      accepted credentials that are unexpired at the last reading. */
  lemma StoreIsLive(calls: seq<Call>, id: Id, expiry: int)
    requires calls != [] && NonDecreasing(Clock(calls))
    ensures id in StoreAfter(calls) && StoreAfter(calls)[id] == expiry <==> LivesOn(calls, id, expiry)
  {
    if id in StoreAfter(calls) && StoreAfter(calls)[id] == expiry {
      RemembersAlways(calls);
      StoreUnexpired(calls);
    }
    if LivesOn(calls, id, expiry) {
      var i :| 0 <= i < |calls| && Answers(calls)[i] && calls[i].id == id && calls[i].expiry == expiry;
      LivingIsStored(calls, i);
    }
  }
}
