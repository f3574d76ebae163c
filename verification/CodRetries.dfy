/** One remittance call that nobody interrupts, and one that is refused and tried again. */
module CodRetries {
  import opened Common
  import opened CodRemittance
  import opened CodCalls

  // ---------------------------------------------------------------- one call alone

  /** The world after call `i` has settled `b` more, leaving `orders`. */
  function Paid(w: World, i: nat, orders: seq<CodOrder>, b: nat, todo: seq<nat>, amounts: seq<nat>): World
    requires i < |w.calls| && w.calls[i].request < |w.store.requests| && b <= w.calls[i].remaining
  {
    var c := w.calls[i];
    var r := w.store.requests[c.request];
    World(w.store.(orders := orders, requests := w.store.requests[c.request := r.(booked := r.booked + b)]),
          w.calls[i := c.(todo := todo, amounts := amounts, remaining := c.remaining - b, paid := c.paid + b)])
  }

  /** A call in its settling loop whose amounts are still up to date. */
  predicate Fresh(w: World, i: nat) {
    && Consistent(w) && i < |w.calls| && !w.calls[i].over
    && w.calls[i].request < |w.store.requests|
    && Listed(w.store.orders, w.calls[i].todo)
    && w.calls[i].amounts == Amounts(w.store.orders, w.calls[i].todo)
  }

  /** One iteration on an amount that is still up to date is one step of the settling pass. */
  lemma FreshPay(w: World, i: nat, orders: seq<CodOrder>, todo: seq<nat>, remaining: nat, m: nat, next: seq<CodOrder>)
    requires Fresh(w, i) && todo != []
    requires orders == w.store.orders && todo == w.calls[i].todo && remaining == w.calls[i].remaining
    requires m == Min(orders[todo[0]].pending, remaining)
    requires next == orders[todo[0] := Reconciled(orders[todo[0]], m)]
    ensures Advance(w, Pay(i)) == Paid(w, i, next, m, todo[1..], Amounts(next, todo[1..]))
  {
    var c := w.calls[i];
    var p := todo[0];
    assert c.amounts[0] == orders[p].pending;
    assert p in todo && p !in todo[1..];
    assert c.amounts[1..] == Amounts(next, todo[1..]);
    if m == 0 {
      assert next == orders;
      assert w.store.requests[c.request := w.store.requests[c.request]] == w.store.requests;
    }
  }

  lemma FreshAfterPay(w: World, v: World, i: nat, next: seq<CodOrder>, m: nat, todo: seq<nat>)
    requires Fresh(w, i) && Consistent(v) && InRange(next, todo) && m <= w.calls[i].remaining
    requires v == Paid(w, i, next, m, todo, Amounts(next, todo))
    ensures Fresh(v, i) && v.store.orders == next && v.calls[i].todo == todo && v.calls[i].remaining == w.calls[i].remaining - m
  {
    assert v.calls[i] in v.calls;
  }

  /** Call `i` goes `n` times around its loop, and nobody else moves. */
  function Iterate(w: World, i: nat, n: nat): (v: World)
    requires Consistent(w)
    ensures Consistent(v)
    decreases n
  {
    if n == 0 then w else AdvanceKeeps(w, Pay(i)); Iterate(Advance(w, Pay(i)), i, n - 1)
  }

  /** At `end` call `i` has settled `b` in all, left `orders` and come to the end of its list. */
  predicate LoopSettles(w: World, i: nat, end: World, orders: seq<CodOrder>, b: nat) {
    && i < |w.calls| && w.calls[i].request < |w.store.requests| && b <= w.calls[i].remaining
    && end == Paid(w, i, orders, b, [], [])
  }

  lemma FreshStep(w: World, i: nat, n: nat, orders: seq<CodOrder>, todo: seq<nat>, remaining: nat, m: nat, next: seq<CodOrder>)
      returns (v: World)
    requires Fresh(w, i) && todo != [] && n > 0
    requires orders == w.store.orders && todo == w.calls[i].todo && remaining == w.calls[i].remaining
    requires m == Min(orders[todo[0]].pending, remaining)
    requires next == orders[todo[0] := Reconciled(orders[todo[0]], m)]
    ensures InRange(next, todo[1..]) && v == Paid(w, i, next, m, todo[1..], Amounts(next, todo[1..]))
    ensures Fresh(v, i) && v.store.orders == next && v.calls[i].todo == todo[1..] && v.calls[i].remaining == remaining - m
    ensures Iterate(w, i, n) == Iterate(v, i, n - 1)
  {
    v := Advance(w, Pay(i));
    AdvanceKeeps(w, Pay(i));
    FreshPay(w, i, orders, todo, remaining, m, next);
    FreshAfterPay(w, v, i, next, m, todo[1..]);
  }

  lemma PayThenPays(w: World, v: World, i: nat, end: World, orders: seq<CodOrder>, m: nat, todo: seq<nat>, amounts: seq<nat>,
                    last: seq<CodOrder>, b: nat)
    requires i < |w.calls| && w.calls[i].request < |w.store.requests| && m <= b <= w.calls[i].remaining
    requires v == Paid(w, i, orders, m, todo, amounts) && LoopSettles(v, i, end, last, b - m)
    ensures LoopSettles(w, i, end, last, b)
  {
  }

  lemma PassOn(orders: seq<CodOrder>, todo: seq<nat>, remaining: nat, m: nat, next: seq<CodOrder>)
    requires AllSound(orders) && Listed(orders, todo) && todo != []
    requires m == Min(orders[todo[0]].pending, remaining)
    requires next == orders[todo[0] := Reconciled(orders[todo[0]], m)]
    ensures Settled(orders, todo, remaining) == Settled(next, todo[1..], remaining - m)
    ensures m <= Booked(orders, todo, remaining) <= remaining
    ensures Booked(orders, todo, remaining) - m == Booked(next, todo[1..], remaining - m)
  {
    OnePass(orders, todo, remaining, m, next);
    BookedIsMin(orders, todo, remaining);
  }

  /** The settling loop of a call nothing interferes with is the settling pass. */
  lemma {:induction false} PaysSettle(w: World, i: nat, n: nat, orders: seq<CodOrder>, todo: seq<nat>, remaining: nat,
                                      last: seq<CodOrder>, b: nat, end: World)
    requires Fresh(w, i) && n == |todo| && end == Iterate(w, i, n)
    requires orders == w.store.orders && todo == w.calls[i].todo && remaining == w.calls[i].remaining
    requires last == Settled(orders, todo, remaining) && b == Booked(orders, todo, remaining)
    ensures LoopSettles(w, i, end, last, b)
    decreases n, 1
  {
    if n > 0 {
      var m := Min(orders[todo[0]].pending, remaining);
      PayFirst(w, i, n, orders, todo, remaining, last, b, m, orders[todo[0] := Reconciled(orders[todo[0]], m)]);
    }
  }

  lemma {:induction false} PayFirst(w: World, i: nat, n: nat, orders: seq<CodOrder>, todo: seq<nat>, remaining: nat,
                                    last: seq<CodOrder>, b: nat, m: nat, next: seq<CodOrder>)
    requires Fresh(w, i) && n == |todo| && n > 0
    requires orders == w.store.orders && todo == w.calls[i].todo && remaining == w.calls[i].remaining
    requires m == Min(orders[todo[0]].pending, remaining)
    requires next == orders[todo[0] := Reconciled(orders[todo[0]], m)]
    requires last == Settled(orders, todo, remaining) && b == Booked(orders, todo, remaining)
    ensures LoopSettles(w, i, Iterate(w, i, n), last, b)
    decreases n, 0
  {
    PassOn(orders, todo, remaining, m, next);
    var v := FreshStep(w, i, n, orders, todo, remaining, m, next);
    SettleTheRest(w, v, i, n - 1, next, todo[1..], remaining, last, b, m, Iterate(v, i, n - 1));
  }

  lemma {:induction false} SettleTheRest(w: World, v: World, i: nat, n: nat, next: seq<CodOrder>, rest: seq<nat>, remaining: nat,
                                         last: seq<CodOrder>, b: nat, m: nat, end: World)
    requires i < |w.calls| && w.calls[i].request < |w.store.requests|
    requires n == |rest| && m <= b <= remaining == w.calls[i].remaining && InRange(next, rest)
    requires v == Paid(w, i, next, m, rest, Amounts(next, rest))
    requires Fresh(v, i) && v.store.orders == next && v.calls[i].todo == rest && v.calls[i].remaining == remaining - m
    requires last == Settled(next, rest, remaining - m) && b - m == Booked(next, rest, remaining - m)
    requires end == Iterate(v, i, n)
    ensures LoopSettles(w, i, end, last, b)
    decreases n, 2
  {
    PaysSettle(v, i, n, next, rest, remaining - m, last, b - m, end);
    PayThenPays(w, v, i, end, next, m, rest, Amounts(next, rest), last, b);
  }

  /** A whole call on request `k`, when nobody else moves. */
  function Alone(w: World, k: nat): World
    requires Consistent(w) && k < |w.store.requests|
  {
    Advance(Iterate(Begun(w, k), |w.calls|, |w.store.requests[k].orders|), Close(|w.calls|))
  }

  lemma ClosedCall(v: World, i: nat, orders: seq<CodOrder>, b: nat)
    requires Fresh(v, i) && v.calls[i].queried && b <= v.calls[i].remaining
    requires Consistent(Paid(v, i, orders, b, [], []))
    ensures var k := v.calls[i].request;
            var r := v.store.requests[k];
            Advance(Paid(v, i, orders, b, [], []), Close(i)).store
              == v.store.(orders := orders, requests := v.store.requests[k := r.(status := Completed, booked := r.booked + b)])
  {
    var k := v.calls[i].request;
    var r := v.store.requests[k];
    var u := Paid(v, i, orders, b, [], []);
    assert u.calls[i].request == k && u.calls[i].queried && !u.calls[i].over && u.calls[i].todo == [];
    assert Advance(u, Close(i)).store.requests == v.store.requests[k := r.(status := Completed, booked := r.booked + b)];
  }

  lemma FreshAfterQuery(w: World, r: Remit, v: World)
    requires Consistent(w) && Consistent(v)
    requires r in w.store.requests && InRange(w.store.orders, r.orders)
    requires |v.calls| == |w.calls| + 1 && v.store == w.store
    requires v.calls[|w.calls|].todo == r.orders && !v.calls[|w.calls|].over
    requires v.calls[|w.calls|].amounts == Amounts(w.store.orders, r.orders)
    ensures Fresh(v, |w.calls|)
  {
    assert v.calls[|w.calls|] in v.calls;
  }

  lemma AloneSettles(w: World, k: nat, r: Remit, last: seq<CodOrder>, b: nat)
    requires Consistent(w) && k < |w.store.requests| && r == w.store.requests[k] && r.status == Pending
    requires r in w.store.requests && InRange(w.store.orders, r.orders)
    requires last == Settled(w.store.orders, r.orders, r.amount) && b == Booked(w.store.orders, r.orders, r.amount)
    ensures Alone(w, k).store ==
              w.store.(orders := last, requests := w.store.requests[k := r.(status := Completed, booked := r.booked + b)])
  {
    var i, n := |w.calls|, |r.orders|;
    var v := Begun(w, k);
    OpenAndQuery(w, k);
    FreshAfterQuery(w, r, v);
    PaysSettle(v, i, n, w.store.orders, r.orders, r.amount, last, b, Iterate(v, i, n));
    ClosedCall(v, i, last, b);
  }

  lemma VerifySettles(s: State, k: nat, r: Remit, last: seq<CodOrder>, b: nat)
    requires Inv(s) && k < |s.requests| && r == s.requests[k] && r.status == Pending
    requires r in s.requests && InRange(s.orders, r.orders)
    requires last == Settled(s.orders, r.orders, r.amount) && b == Booked(s.orders, r.orders, r.amount)
    ensures Step(s, Verify(k, Captured)) ==
              s.(orders := last, requests := s.requests[k := r.(status := Completed, booked := r.booked + b)])
  {
    VerifyEffect(s, k);
  }

  /** A verification call that runs without interruption is the single step of the coarse model. */
  lemma AloneIsVerify(w: World, k: nat)
    requires Consistent(w) && Inv(w.store) && k < |w.store.requests| && w.store.requests[k].status == Pending
    ensures Alone(w, k).store == Step(w.store, Verify(k, Captured))
  {
    var r := w.store.requests[k];
    assert r in w.store.requests;
    var last, b := Settled(w.store.orders, r.orders, r.amount), Booked(w.store.orders, r.orders, r.amount);
    VerifySettles(w.store, k, r, last, b);
    AloneSettles(w, k, r, last, b);
  }

  // ---------------------------------------------------------------- a refused call and its retry

  /** Overlap is not needed: a call that is refused part-way leaves its request pending with what it
      has booked, and a retry nobody interrupts books the smaller of the whole amount and what the
      orders still owe on top of that. */
  lemma RetryBooksOnTop(w: World, k: nat)
    requires Consistent(w) && k < |w.store.requests| && w.store.requests[k].status == Pending
    ensures var r := w.store.requests[k];
            && InRange(w.store.orders, r.orders)
            && k < |Alone(w, k).store.requests|
            && Alone(w, k).store.requests[k].booked == r.booked + Min(r.amount, Owed(w.store.orders, r.orders))
  {
    var r := w.store.requests[k];
    assert r in w.store.requests;
    AloneSettles(w, k, r, Settled(w.store.orders, r.orders, r.amount), Booked(w.store.orders, r.orders, r.amount));
    BookedIsMin(w.store.orders, r.orders, r.amount);
  }

  /** A reconciliation beyond what the order owes by now ends the call and changes nothing else. */
  lemma RefusedPay(w: World, i: nat)
    requires Consistent(w) && i < |w.calls| && !w.calls[i].over && w.calls[i].todo != []
    requires w.calls[i].todo[0] < |w.store.orders| && |w.calls[i].amounts| == |w.calls[i].todo|
    requires Min(w.calls[i].amounts[0], w.calls[i].remaining) > w.store.orders[w.calls[i].todo[0]].pending
    ensures Advance(w, Pay(i)) == w.(calls := w.calls[i := w.calls[i].(over := true)])
  {
  }

  /** The three moves of the example: the call pays its first order, an administrator reconciles
      `d` on the second one, and the call goes on. */
  function RefusedRun(w: World, k: nat, q: nat, d: nat): (v: World)
    requires Consistent(w)
    ensures Consistent(v)
  {
    var i := |w.calls|;
    var paid := Advance(Begun(w, k), Pay(i));
    AdvanceKeeps(Begun(w, k), Pay(i));
    var moved := Advance(paid, Other(Reconcile(q, d)));
    AdvanceKeeps(paid, Other(Reconcile(q, d)));
    AdvanceKeeps(moved, Pay(i));
    Advance(moved, Pay(i))
  }

  /** The first order owes `a`, less than the amount; reconciling `d` leaves the second one short of
      what the call has read. */
  predicate RefusalAhead(w: World, k: nat, p: nat, q: nat, a: nat, d: nat) {
    && k < |w.store.requests| && w.store.requests[k].status == Pending && w.store.requests[k].booked == 0
    && |w.store.requests[k].orders| >= 2
    && w.store.requests[k].orders[0] == p && w.store.requests[k].orders[1] == q
    && p < |w.store.orders| && q < |w.store.orders| && p != q
    && w.store.orders[p].pending == a && 0 < a < w.store.requests[k].amount
    && ReconcileAccepted(w.store.orders[q], d)
    && w.store.orders[q].pending - d < Min(w.store.orders[q].pending, w.store.requests[k].amount - a)
  }

  /** The call has paid its first order and still holds the second one as it read it. */
  lemma FirstPaid(w: World, k: nat, p: nat, q: nat, a: nat, d: nat)
    requires Consistent(w) && RefusalAhead(w, k, p, q, a, d)
    ensures var r, i := w.store.requests[k], |w.calls|;
            var v := Advance(Begun(w, k), Pay(i));
            && Consistent(v) && Fresh(v, i) && v.calls[i].todo == r.orders[1..] && v.calls[i].remaining == r.amount - a
            && v.calls[i].amounts[0] == w.store.orders[q].pending
            && v.store.orders == w.store.orders[p := Reconciled(w.store.orders[p], a)]
            && v.store.requests == w.store.requests[k := r.(booked := a)]
  {
    var r, i := w.store.requests[k], |w.calls|;
    assert r in w.store.requests;
    OpenAndQuery(w, k);
    var u := Begun(w, k);
    FreshAfterQuery(w, r, u);
    var next := w.store.orders[p := Reconciled(w.store.orders[p], a)];
    FreshPay(u, i, w.store.orders, r.orders, r.amount, a, next);
    AdvanceKeeps(u, Pay(i));
    FreshAfterPay(u, Advance(u, Pay(i)), i, next, a, r.orders[1..]);
  }

  /** After the refusal the request is pending, `a` is booked, and the orders owe `a + d` less. */
  lemma RefusalLeaves(w: World, k: nat, p: nat, q: nat, a: nat, d: nat)
    requires Consistent(w) && RefusalAhead(w, k, p, q, a, d)
    ensures var r, v := w.store.requests[k], RefusedRun(w, k, q, d);
            && k < |v.store.requests| && v.store.requests[k] == r.(booked := a)
            && |v.calls| == |w.calls| + 1 && v.calls[|w.calls|].over
            && v.store.orders == w.store.orders[p := Reconciled(w.store.orders[p], a)][q := Reconciled(w.store.orders[q], d)]
  {
    var i := |w.calls|;
    FirstPaid(w, k, p, q, a, d);
    OpenAndQuery(w, k);
    var paid := Advance(Begun(w, k), Pay(i));
    var moved := Advance(paid, Other(Reconcile(q, d)));
    AdvanceKeeps(paid, Other(Reconcile(q, d)));
    assert moved.calls == paid.calls && moved.store.requests == paid.store.requests;
    assert moved.store.orders == paid.store.orders[q := Reconciled(w.store.orders[q], d)];
    RefusedPay(moved, i);
  }

  lemma OwedAfterTwo(orders: seq<CodOrder>, ids: seq<nat>, a: nat, d: nat)
    requires AllSound(orders) && Listed(orders, ids) && |ids| >= 2
    requires a == orders[ids[0]].pending && d <= orders[ids[1]].pending
    ensures var p, q := ids[0], ids[1];
            var next := orders[p := Reconciled(orders[p], a)][q := Reconciled(orders[q], d)];
            Owed(next, ids) == Owed(orders, ids) - a - d
  {
    var p, q := ids[0], ids[1];
    var mid := orders[p := Reconciled(orders[p], a)];
    var next := mid[q := Reconciled(orders[q], d)];
    var rest := ids[1..];
    assert p !in rest && rest[0] == q && q !in rest[1..];
    OwedElsewhere(orders, rest, p, Reconciled(orders[p], a));
    OwedElsewhere(mid, rest[1..], q, Reconciled(orders[q], d));
  }

  /** What the refused call leaves behind. */
  predicate LeftRefused(w: World, v: World, k: nat, a: nat, d: nat) {
    && k < |w.store.requests| && k < |v.store.requests| && w.store.requests[k].status == Pending
    && v.store.requests[k] == w.store.requests[k].(booked := a)
    && InRange(w.store.orders, w.store.requests[k].orders) && InRange(v.store.orders, w.store.requests[k].orders)
    && Owed(v.store.orders, w.store.requests[k].orders) + a + d == Owed(w.store.orders, w.store.requests[k].orders)
  }

  lemma RefusedIsLeft(w: World, k: nat, p: nat, q: nat, a: nat, d: nat) returns (v: World)
    requires Consistent(w) && RefusalAhead(w, k, p, q, a, d)
    ensures v == RefusedRun(w, k, q, d) && Consistent(v) && LeftRefused(w, v, k, a, d)
  {
    v := RefusedRun(w, k, q, d);
    var r := w.store.requests[k];
    assert r in w.store.requests;
    RefusalLeaves(w, k, p, q, a, d);
    OwedAfterTwo(w.store.orders, r.orders, a, d);
  }

  lemma RetryOfRefused(w: World, v: World, k: nat, a: nat, d: nat)
    requires Consistent(v) && LeftRefused(w, v, k, a, d)
    ensures var r := w.store.requests[k];
            && k < |Alone(v, k).store.requests|
            && Alone(v, k).store.requests[k].booked == a + Min(r.amount, Owed(v.store.orders, r.orders))
  {
    RetryBooksOnTop(v, k);
  }

  /**
    The retry of the refused call then books the smaller of the whole amount and what is still owed
    on top of `a`: more than the rider paid if and only if the orders owed more than the amount and
    `d` together when the first call began.
  */
  lemma RefusedCallIsBookedAgain(w: World, k: nat, p: nat, q: nat, a: nat, d: nat) returns (v: World)
    requires Consistent(w) && RefusalAhead(w, k, p, q, a, d)
    ensures v == RefusedRun(w, k, q, d) && Consistent(v) && LeftRefused(w, v, k, a, d) && k < |Alone(v, k).store.requests|
    ensures var r := w.store.requests[k];
            && Alone(v, k).store.requests[k].booked == a + Min(r.amount, Owed(v.store.orders, r.orders))
            && (Alone(v, k).store.requests[k].booked > r.amount <==> Owed(w.store.orders, r.orders) > r.amount + d)
  {
    v := RefusedIsLeft(w, k, p, q, a, d);
    RetryOfRefused(w, v, k, a, d);
  }

  lemma SubmitOnThreeOrders(o: CodOrder, p: CodOrder, q: CodOrder, a: nat)
    requires Eligible(o, 7) && Eligible(p, 7) && Eligible(q, 7)
    requires o.pending + p.pending < a <= o.pending + p.pending + q.pending
    ensures Submission([o, p, q], 7, Some(a)) == Some(Remit(7, a, [0, 1, 2], Pending, 0))
    ensures Owed([o, p, q], [0, 1, 2]) == o.pending + p.pending + q.pending
  {
    var orders := [o, p, q];
    assert EligibleFrom(orders, 7, 2) == [2] + EligibleFrom(orders, 7, 3) == [2];
    assert EligibleFrom(orders, 7, 1) == [1] + [2];
    assert EligibleFrom(orders, 7, 0) == [0] + ([1] + [2]) == [0, 1, 2];
    assert [0, 1, 2][1..] == [1, 2] && [1, 2][1..] == [2];
    assert Owed(orders, [2]) == q.pending + Owed(orders, []);
    assert Owed(orders, [1, 2]) == p.pending + q.pending;
    var rest := a - o.pending - p.pending;
    assert Picked(orders, [2], rest) == [2] + Picked(orders, [], rest - Min(q.pending, rest)) == [2];
    assert Picked(orders, [1, 2], a - o.pending) == [1] + [2];
    assert Picked(orders, [0, 1, 2], a) == [0] + ([1] + [2]);
  }

  lemma ThreeOrders(start: World, o: CodOrder, p: CodOrder, q: CodOrder) returns (ms: seq<Move>)
    requires Consistent(start) && start.store.orders == []
    requires o == CodOrder(7, true, false, true, o.collected, 0, o.collected) && o.collected > 0
    requires p == CodOrder(7, true, false, true, p.collected, 0, p.collected) && p.collected > 0
    requires q == CodOrder(7, true, false, true, q.collected, 0, q.collected) && q.collected > 0
    ensures Go(start, ms) == start.(store := start.store.(orders := [o, p, q]))
  {
    ms := OrderCollected(start, [], start, o.collected);
    assert [] + [o] == [o];
    ms := OrderCollected(start, ms, Go(start, ms), p.collected);
    assert [o] + [p] == [o, p];
    ms := OrderCollected(start, ms, Go(start, ms), q.collected);
    assert [o, p] + [q] == [o, p, q];
  }

  lemma ThreeSubmitted(w: World, o: CodOrder, p: CodOrder, q: CodOrder, a: nat, v: World)
    requires Consistent(w) && w.store.orders == [o, p, q] && w.store.requests == []
    requires Eligible(o, 7) && Eligible(p, 7) && Eligible(q, 7)
    requires o.pending + p.pending < a <= o.pending + p.pending + q.pending
    requires v == w.(store := w.store.(requests := [Remit(7, a, [0, 1, 2], Pending, 0)]))
    ensures Advance(w, Other(Submit(7, Some(a)))) == v
  {
    SubmitOnThreeOrders(o, p, q, a);
  }

  lemma RefusalFrom(start: World, o: CodOrder, p: CodOrder, q: CodOrder) returns (ms: seq<Move>)
    requires start == START
    requires o == CodOrder(7, true, false, true, 60, 0, 60)
    requires p == CodOrder(7, true, false, true, 10, 0, 10)
    requires q == CodOrder(7, true, false, true, 1000, 0, 1000)
    ensures Consistent(start)
    ensures Go(start, ms) == World(State([o, p, q], [Remit(7, 100, [0, 1, 2], Pending, 0)], 0), [])
  {
    StartIsConsistent(start);
    ms := ThreeOrders(start, o, p, q);
    var w := Go(start, ms);
    var v := w.(store := w.store.(requests := [Remit(7, 100, [0, 1, 2], Pending, 0)]));
    ThreeSubmitted(w, o, p, q, 100, v);
    ReachOn(start, ms, w, Other(Submit(7, Some(100))), v);
    ms := ms + [Other(Submit(7, Some(100)))];
  }

  /** Such a refusal can lie ahead: orders of 60, 10 and 1000 with a payment of 100 pending. When an
      administrator reconciles 1 on the second order, the retry brings what is booked to 160. */
  lemma RefusalIsReachable() returns (ms: seq<Move>)
    ensures var w := Go(START, ms);
            && RefusalAhead(w, 0, 0, 1, 60, 1) && w.store.requests[0].amount == 100
            && InRange(w.store.orders, w.store.requests[0].orders)
            && Owed(w.store.orders, w.store.requests[0].orders) == 1070
  {
    var start := START;
    var o, p, q := CodOrder(7, true, false, true, 60, 0, 60), CodOrder(7, true, false, true, 10, 0, 10), CodOrder(7, true, false, true, 1000, 0, 1000);
    ms := RefusalFrom(start, o, p, q);
    SubmitOnThreeOrders(o, p, q, 100);
  }
}
