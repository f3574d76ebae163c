/** What holds however the steps of overlapping remittance calls interleave. */
module CodInterleaving {
  import opened Common
  import opened CodRemittance
  import opened CodCalls

  lemma {:induction false} PaidWithinCalls(calls: seq<Call>, k: nat, amount: nat)
    requires forall c :: c in calls && c.request == k ==> c.paid <= amount
    ensures PaidFor(calls, k) <= amount * CallsFor(calls, k)
    decreases |calls|
  {
    if calls != [] {
      assert calls[0] in calls && forall c :: c in calls[1..] ==> c in calls;
      PaidWithinCalls(calls[1..], k, amount);
      var n := CallsFor(calls[1..], k);
      assert amount * (1 + n) == amount + amount * n;
    }
  }

  /**
    However the steps of overlapping calls interleave, no order is ever paid beyond what it owes,
    pending, booked and directly reconciled cash add up to the cash collected, and a request has
    booked at most its amount for every verification call that got past the status check.
  */
  lemma InterleavingsConserve(ms: seq<Move>)
    ensures var w := Go(START, ms);
            && AllSound(w.store.orders)
            && TotalPending(w.store.orders) + TotalBooked(w.store.requests) + w.store.direct == TotalCollected(w.store.orders)
            && (forall k :: 0 <= k < |w.store.requests| ==>
                  w.store.requests[k].booked <= w.store.requests[k].amount * CallsFor(w.calls, k))
  {
    var w := Go(START, ms);
    SoundTotals(w.store.orders);
    forall k | 0 <= k < |w.store.requests|
      ensures w.store.requests[k].booked <= w.store.requests[k].amount * CallsFor(w.calls, k)
    {
      PaidWithinCalls(w.calls, k, w.store.requests[k].amount);
    }
  }

  // ---------------------------------------------------------------- two calls on one request

  /** One COD order on which `due` of `collected` is still owed, one request, some calls. */
  function Scene(collected: nat, due: nat, request: Remit, calls: seq<Call>): World
    requires due <= collected
  {
    World(State([CodOrder(7, true, false, true, collected, collected - due, due)], [request], 0), calls)
  }

  lemma SubmitOnOneOrder(o: CodOrder, a: nat)
    requires Eligible(o, 7) && 0 < a <= o.pending
    ensures Submission([o], 7, Some(a)) == Some(Remit(7, a, [0], Pending, 0))
  {
    assert EligibleFrom([o], 7, 0) == [0] + EligibleFrom([o], 7, 1) == [0];
    assert Owed([o], [0]) == o.pending + Owed([o], []);
    assert Picked([o], [0], a) == [0] + Picked([o], [], 0);
  }

  lemma SceneRequested(a: nat, s: State)
    requires a > 0 && s == State([CodOrder(7, true, false, true, 2 * a, 0, 2 * a)], [], 0)
    ensures Elsewhere(s, Submit(7, Some(a))) == Scene(2 * a, 2 * a, Remit(7, a, [0], Pending, 0), []).store
  {
    SubmitOnOneOrder(s.orders[0], a);
  }

  lemma SceneSubmitted(a: nat, start: World) returns (ms: seq<Move>)
    requires a > 0 && start == START
    ensures Consistent(start) && Go(start, ms) == Scene(2 * a, 2 * a, Remit(7, a, [0], Pending, 0), [])
  {
    StartIsConsistent(start);
    var o := CodOrder(7, true, false, true, 2 * a, 0, 2 * a);
    ms := OrderCollected(start, [], start, o.collected);
    assert [] + [o] == [o];
    var collected, submit := World(State([o], [], 0), []), Other(Submit(7, Some(a)));
    SceneRequested(a, collected.store);
    var submitted := collected.(store := Elsewhere(collected.store, submit.event));
    ReachOn(start, ms, collected, submit, submitted);
    ms := ms + [submit];
  }

  lemma SceneQueried(a: nat, w: World)
    requires Consistent(w) && w == Scene(2 * a, 2 * a, Remit(7, a, [0], Pending, 0), [])
    ensures var c := Call(0, true, [0], [2 * a], a, 0, false);
            Go(w, [] + [Open(0)] + [Query(0)] + [Open(0)] + [Query(1)]) == w.(calls := [c, c])
  {
    var c := Call(0, true, [0], [2 * a], a, 0, false);
    OpenAndQuery(w, 0);
    assert Amounts(w.store.orders, [0]) == [2 * a];
    GoOn(w, [], Open(0));
    GoOn(w, [] + [Open(0)], Query(0));
    var ms := [] + [Open(0)] + [Query(0)];
    var u := Go(w, ms);
    assert u == Begun(w, 0) == w.(calls := [c]);
    OpenAndQuery(u, 0);
    GoOn(w, ms, Open(0));
    GoOn(w, ms + [Open(0)], Query(1));
    assert Go(w, ms + [Open(0)] + [Query(1)]) == Begun(u, 0);
  }

  lemma ScenePaid(a: nat, w: World, i: nat, due: nat, booked: nat, before: Call)
    requires a > 0 && Consistent(w) && due == 2 * a - booked && a <= due
    requires before == Call(0, true, [0], [2 * a], a, 0, false)
    requires w.store == Scene(2 * a, due, Remit(7, a, [0], Pending, booked), []).store
    requires i < |w.calls| && w.calls[i] == before
    ensures Advance(w, Pay(i)) ==
              Scene(2 * a, due - a, Remit(7, a, [0], Pending, booked + a), w.calls[i := Call(0, true, [], [], 0, a, false)])
  {
    assert before.todo[1..] == [] && before.amounts[1..] == [];
  }

  lemma SceneBothPaid(a: nat, w: World)
    requires a > 0 && Consistent(w)
    requires var c := Call(0, true, [0], [2 * a], a, 0, false);
             w == Scene(2 * a, 2 * a, Remit(7, a, [0], Pending, 0), [c, c])
    ensures var c := Call(0, true, [], [], 0, a, false);
            Go(w, [] + [Pay(0)] + [Pay(1)]) == Scene(2 * a, 0, Remit(7, a, [0], Pending, 2 * a), [c, c])
  {
    var before, after := Call(0, true, [0], [2 * a], a, 0, false), Call(0, true, [], [], 0, a, false);
    GoOn(w, [], Pay(0));
    ScenePaid(a, w, 0, 2 * a, 0, before);
    var u := Go(w, [] + [Pay(0)]);
    assert [before, before][0 := after] == [after, before];
    GoOn(w, [] + [Pay(0)], Pay(1));
    ScenePaid(a, u, 1, a, a, before);
    assert [after, before][1 := after] == [after, after];
  }

  lemma OverlapFrom(a: nat, start: World) returns (ms: seq<Move>)
    requires a > 0 && start == START
    ensures Consistent(start)
    ensures var c := Call(0, true, [], [], 0, a, false);
            Go(start, ms) == Scene(2 * a, 0, Remit(7, a, [0], Pending, 2 * a), [c, c])
  {
    ms := SceneSubmitted(a, start);
    var open := [] + [Open(0)] + [Query(0)] + [Open(0)] + [Query(1)];
    SceneQueried(a, Go(start, ms));
    GoAppend(start, ms, open);
    ms := ms + open;
    SceneBothPaid(a, Go(start, ms));
    GoAppend(start, ms, [] + [Pay(0)] + [Pay(1)]);
    ms := ms + ([] + [Pay(0)] + [Pay(1)]);
  }

  /** The gateway's webhook and the rider's own verification may both get past the status check;
      then one payment of any amount is booked twice when its order owes that much. */
  lemma OverlappingCallsBookTwice(a: nat) returns (ms: seq<Move>)
    requires a > 0
    ensures var w := Go(START, ms);
            && |w.store.requests| == 1 && w.store.requests[0].status == Completed
            && w.store.requests[0].amount == a && w.store.requests[0].booked == 2 * a
            && CallsFor(w.calls, 0) == 2
  {
    var start := START;
    ms := OverlapFrom(a, start);
    var w := Go(start, ms);
    GoOn(start, ms, Close(0));
    ms := ms + [Close(0)];
    TwoCalls(w.calls);
    CallUpdate(w.calls, 0, w.calls[0].(over := true), 0);
  }

  lemma TwoCalls(calls: seq<Call>)
    requires |calls| == 2 && calls[0].request == calls[1].request == 0
    ensures CallsFor(calls, 0) == 2
  {
    assert calls[1..][1..] == [];
    assert CallsFor(calls[1..], 0) == 1 + CallsFor([], 0);
  }

  /** Along `ms` a request for which at most `n` calls got past the status check has not booked
      more than its amount. */
  ghost predicate WithinAmount(ms: seq<Move>, k: nat, n: nat) {
    var w := Go(START, ms);
    k < |w.store.requests| && CallsFor(w.calls, k) <= n ==> w.store.requests[k].booked <= w.store.requests[k].amount
  }

  /** Requests keep within their amount on every interleaving if and only if no more than one call
      is let through for each. */
  lemma BookedWithinAmountIff(n: nat)
    ensures (forall ms: seq<Move>, k: nat :: WithinAmount(ms, k, n)) <==> n <= 1
  {
    if n <= 1 {
      forall ms: seq<Move>, k: nat ensures WithinAmount(ms, k, n) {
        InterleavingsConserve(ms);
        var w := Go(START, ms);
        if k < |w.store.requests| && CallsFor(w.calls, k) <= n {
          OneCallAtMost(w.store.requests[k].amount, CallsFor(w.calls, k));
        }
      }
    } else {
      var ms := OverlappingCallsBookTwice(1);
      assert !WithinAmount(ms, 0, n);
    }
  }

  lemma OneCallAtMost(amount: nat, n: nat)
    requires n <= 1
    ensures amount * n <= amount
  {
  }

  // ---------------------------------------------------------------- what is closed stays closed

  lemma AdvanceKeepsClosed(w: World, m: Move, k: nat)
    requires Consistent(w) && k < |w.store.requests| && w.store.requests[k].status != Pending
    ensures var v := Advance(w, m);
            && k < |v.store.requests| && v.store.requests[k].status != Pending
            && CallsFor(v.calls, k) == CallsFor(w.calls, k)
  {
    match m
    case Other(e) =>
      if !e.Verify? {
        ElsewhereKeepsMoney(w.store, e);
        OtherKeepsLists(w.store, Elsewhere(w.store, e), e);
      }
    case Open(j) =>
      if Advance(w, m) != w {
        CallAppend(w.calls, Advance(w, m).calls[|w.calls|], k);
      }
    case Query(i) => SameCalls(w, m, i, k);
    case Pay(i) => SameCalls(w, m, i, k); KeepsClosed(w, m, i, k);
    case Close(i) => SameCalls(w, m, i, k); KeepsClosed(w, m, i, k);
  }

  lemma KeepsClosed(w: World, m: Move, i: nat, k: nat)
    requires Consistent(w) && (m == Pay(i) || m == Close(i))
    requires k < |w.store.requests| && w.store.requests[k].status != Pending
    ensures var v := Advance(w, m); k < |v.store.requests| && v.store.requests[k].status != Pending
  {
    if i < |w.calls| {
      assert w.calls[i] in w.calls;
    }
  }

  lemma SameCalls(w: World, m: Move, i: nat, k: nat)
    requires Consistent(w) && (m == Query(i) || m == Pay(i) || m == Close(i))
    ensures CallsFor(Advance(w, m).calls, k) == CallsFor(w.calls, k)
  {
    if Advance(w, m) != w && i < |w.calls| {
      assert w.calls[i] in w.calls;
      CallUpdate(w.calls, i, Advance(w, m).calls[i], k);
    }
  }

  /** Once a request is no longer pending it never is again, and no further call is let through for it. */
  lemma {:induction false} ClosedLetsNoneThrough(w: World, ms: seq<Move>, k: nat)
    requires Consistent(w) && k < |w.store.requests| && w.store.requests[k].status != Pending
    ensures var v := Go(w, ms);
            && k < |v.store.requests| && v.store.requests[k].status != Pending
            && CallsFor(v.calls, k) == CallsFor(w.calls, k)
    decreases |ms|
  {
    if ms != [] {
      AdvanceKeepsClosed(w, ms[0], k);
      AdvanceKeeps(w, ms[0]);
      ClosedLetsNoneThrough(Advance(w, ms[0]), ms[1..], k);
    }
  }

  lemma AdvanceKeepsOver(w: World, m: Move, i: nat)
    requires Consistent(w) && i < |w.calls| && w.calls[i].queried && w.calls[i].over
    ensures i < |Advance(w, m).calls| && Advance(w, m).calls[i] == w.calls[i]
  {
  }

  /** A call that has saved its request, or was refused, does nothing more. */
  lemma {:induction false} OverIsOver(w: World, ms: seq<Move>, i: nat)
    requires Consistent(w) && i < |w.calls| && w.calls[i].queried && w.calls[i].over
    ensures i < |Go(w, ms).calls| && Go(w, ms).calls[i] == w.calls[i]
    decreases |ms|
  {
    if ms != [] {
      AdvanceKeepsOver(w, ms[0], i);
      AdvanceKeeps(w, ms[0]);
      OverIsOver(Advance(w, ms[0]), ms[1..], i);
    }
  }

  /** A call that has come to the end of its list completes its request and is over. */
  lemma ClosingCompletes(w: World, i: nat)
    requires Consistent(w) && i < |w.calls| && w.calls[i].queried && !w.calls[i].over && w.calls[i].todo == []
    ensures w.calls[i].request < |w.store.requests|
    ensures var v, k := Advance(w, Close(i)), w.calls[i].request;
            && v.calls[i].over && v.store.requests[k].status == Completed && v.store.orders == w.store.orders
  {
    assert w.calls[i] in w.calls;
  }
}
