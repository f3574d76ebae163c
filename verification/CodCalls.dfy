/**
  Verification calls of the cash remittance at the grain of their `await`s
  (backend/app/controller/deliveryController.js, lines 185-262, and the webhook twin in
  backend/app/services/paymentService.js, lines 726-784): a call loads its request, queries the
  orders, reconciles them one transaction at a time and saves the request, and any other call
  may run in between. Nothing locks the request. A second call on it cannot write its transaction
  record (backend/app/models/transaction.js, lines 33-37), but by then it has reconciled its orders,
  and the request is completed by the call that could.
*/
module CodCalls {
  import opened Common
  import opened CodRemittance

  /** A running call: what it has read, and how much it has settled so far. */
  datatype Call = Call(request: nat, queried: bool, todo: seq<nat>, amounts: seq<nat>,
                       remaining: nat, paid: nat, over: bool)

  datatype World = World(store: State, calls: seq<Call>)

  datatype Move =
    | Other(event: Event)
    | Open(request: nat)
    | Query(call: nat)
    | Pay(call: nat)
    | Close(call: nat)

  function Amounts(orders: seq<CodOrder>, ids: seq<nat>): (r: seq<nat>)
    requires InRange(orders, ids)
  {
    seq(|ids|, i requires 0 <= i < |ids| => orders[ids[i]].pending)
  }

  function PaidFor(calls: seq<Call>, k: nat): nat {
    if calls == [] then 0
    else (if calls[0].request == k then calls[0].paid else 0) + PaidFor(calls[1..], k)
  }

  function CallsFor(calls: seq<Call>, k: nat): nat {
    if calls == [] then 0 else (if calls[0].request == k then 1 else 0) + CallsFor(calls[1..], k)
  }

  predicate CallFits(s: State, c: Call) {
    && c.request < |s.requests|
    && Listed(s.orders, c.todo) && |c.amounts| == |c.todo|
    && c.paid + c.remaining == s.requests[c.request].amount
  }

  predicate Consistent(w: World) {
    && MoneyAddsUp(w.store)
    && (forall r :: r in w.store.requests ==> Listed(w.store.orders, r.orders))
    && (forall c :: c in w.calls ==> CallFits(w.store, c))
    && (forall k :: 0 <= k < |w.store.requests| ==> w.store.requests[k].booked == PaidFor(w.calls, k))
  }

  /** One iteration of the settling loop; a refused reconciliation ends the call and leaves its
      request pending. */
  function PayOne(w: World, i: nat): World
    requires Consistent(w) && i < |w.calls| && w.calls[i].todo != []
  {
    var c := w.calls[i];
    assert c in w.calls;
    var s := w.store;
    var p := c.todo[0];
    var m := Min(c.amounts[0], c.remaining);
    var next := c.(todo := c.todo[1..], amounts := c.amounts[1..]);
    if m == 0 then w.(calls := w.calls[i := next])
    else if !ReconcileAccepted(s.orders[p], m) then w.(calls := w.calls[i := c.(over := true)])
    else
      var r := s.requests[c.request];
      World(s.(orders := s.orders[p := Reconciled(s.orders[p], m)],
               requests := s.requests[c.request := r.(booked := r.booked + m)]),
            w.calls[i := next.(remaining := c.remaining - m, paid := c.paid + m)])
  }

  function Advance(w: World, m: Move): World
    requires Consistent(w)
  {
    match m
    case Other(e) => if e.Verify? then w else w.(store := Elsewhere(w.store, e))
    case Open(k) =>
      if k < |w.store.requests| && w.store.requests[k].status == Pending
      then w.(calls := w.calls + [Call(k, false, [], [], w.store.requests[k].amount, 0, false)]) else w
    case Query(i) =>
      if i < |w.calls| && !w.calls[i].queried then
        var c := w.calls[i];
        assert c in w.calls && w.store.requests[c.request] in w.store.requests;
        var ids := w.store.requests[c.request].orders;
        FoundIsList(|w.store.orders|, ids);
        var found := Found(|w.store.orders|, ids, 0);
        w.(calls := w.calls[i := c.(queried := true, todo := found, amounts := Amounts(w.store.orders, found))])
      else w
    case Pay(i) =>
      if i < |w.calls| && !w.calls[i].over && w.calls[i].todo != [] then PayOne(w, i) else w
    case Close(i) =>
      if i < |w.calls| && w.calls[i].queried && !w.calls[i].over && w.calls[i].todo == [] then
        var c := w.calls[i];
        assert c in w.calls;
        World(w.store.(requests := w.store.requests[c.request := w.store.requests[c.request].(status := Completed)]),
              w.calls[i := c.(over := true)])
      else w
  }

  // ---------------------------------------------------------------- what every interleaving keeps

  lemma {:induction false} CallUpdate(calls: seq<Call>, i: nat, c: Call, k: nat)
    requires i < |calls| && c.request == calls[i].request
    ensures PaidFor(calls[i := c], k) == PaidFor(calls, k) + (if c.request == k then c.paid - calls[i].paid else 0)
    ensures CallsFor(calls[i := c], k) == CallsFor(calls, k)
    decreases |calls|
  {
    if i > 0 {
      CallUpdate(calls[1..], i - 1, c, k);
      assert calls[i := c][1..] == calls[1..][i - 1 := c];
    } else {
      assert calls[i := c][1..] == calls[1..];
    }
  }

  lemma {:induction false} CallAppend(calls: seq<Call>, c: Call, k: nat)
    ensures PaidFor(calls + [c], k) == PaidFor(calls, k) + (if c.request == k then c.paid else 0)
    ensures CallsFor(calls + [c], k) == CallsFor(calls, k) + (if c.request == k then 1 else 0)
    decreases |calls|
  {
    if calls == [] {
      assert calls + [c] == [c] && [c][1..] == [];
    } else {
      CallAppend(calls[1..], c, k);
      assert (calls + [c])[1..] == calls[1..] + [c];
    }
  }

  /** No call has yet touched a request nobody open. */
  lemma {:induction false} NoneFor(s: State, calls: seq<Call>, k: nat)
    requires forall c :: c in calls ==> c.request < |s.requests|
    requires k >= |s.requests|
    ensures PaidFor(calls, k) == 0
    decreases |calls|
  {
    if calls != [] {
      assert calls[0] in calls && forall c :: c in calls[1..] ==> c in calls;
      NoneFor(s, calls[1..], k);
    }
  }

  /** A call that has dropped at most the head of its list, with what it paid taken from what remained. */
  predicate MovedOn(c: Call, d: Call) {
    && d.request == c.request && d.paid + d.remaining == c.paid + c.remaining
    && ((d.todo == c.todo && d.amounts == c.amounts)
        || (c.todo != [] && c.amounts != [] && d.todo == c.todo[1..] && d.amounts == c.amounts[1..]))
  }

  lemma MovedOnFits(s: State, t: State, c: Call, d: Call)
    requires CallFits(s, c) && MovedOn(c, d) && Grown(s.orders, t.orders)
    requires |s.requests| <= |t.requests| && t.requests[c.request].amount == s.requests[c.request].amount
    ensures CallFits(t, d)
  {
    if d.todo != c.todo {
      assert forall q :: q in c.todo[1..] ==> q in c.todo;
    }
  }

  lemma OtherKeepsLists(s: State, t: State, e: Event)
    requires AllSound(s.orders) && !e.Verify? && t == Elsewhere(s, e) && Grown(s.orders, t.orders)
    requires forall r :: r in s.requests ==> Listed(s.orders, r.orders)
    ensures |s.requests| <= |t.requests| <= |s.requests| + 1
    ensures forall k :: 0 <= k < |s.requests| ==> t.requests[k] == s.requests[k]
    ensures |t.requests| > |s.requests| ==> t.requests[|s.requests|].booked == 0
    ensures forall r :: r in t.requests ==> Listed(t.orders, r.orders)
  {
    if e.Submit? {
      SubmissionMeaning(s.orders, e.rider, e.requested);
    }
  }

  lemma OtherKeeps(w: World, e: Event)
    requires Consistent(w) && !e.Verify?
    ensures Consistent(Advance(w, Other(e)))
  {
    var t := Elsewhere(w.store, e);
    ElsewhereKeepsMoney(w.store, e);
    assert Grown(w.store.orders, t.orders);
    OtherKeepsLists(w.store, t, e);
    forall c | c in w.calls ensures CallFits(t, c) {
      MovedOnFits(w.store, t, c, c);
    }
    NoneFor(w.store, w.calls, |w.store.requests|);
  }

  lemma PayKeepsMoney(w: World, i: nat)
    requires Consistent(w) && i < |w.calls| && w.calls[i].todo != []
    ensures var v := PayOne(w, i);
            && MoneyAddsUp(v.store) && Grown(w.store.orders, v.store.orders)
            && |v.calls| == |w.calls| && |v.store.requests| == |w.store.requests|
            && (forall k :: 0 <= k < |v.store.requests| ==>
                  && v.store.requests[k].orders == w.store.requests[k].orders
                  && v.store.requests[k].amount == w.store.requests[k].amount)
  {
    var c := w.calls[i];
    assert c in w.calls;
    var v := PayOne(w, i);
    var p := c.todo[0];
    if v.store != w.store {
      TotalsUpdate(w.store.orders, p, v.store.orders[p]);
      TotalBookedUpdate(w.store.requests, c.request, v.store.requests[c.request]);
    }
  }

  lemma PayKeepsBooked(w: World, i: nat)
    requires Consistent(w) && i < |w.calls| && w.calls[i].todo != []
    ensures var v := PayOne(w, i);
            forall k :: 0 <= k < |v.store.requests| ==> v.store.requests[k].booked == PaidFor(v.calls, k)
  {
    var v := PayOne(w, i);
    assert w.calls[i] in w.calls;
    forall k | 0 <= k < |v.store.requests| ensures v.store.requests[k].booked == PaidFor(v.calls, k) {
      CallUpdate(w.calls, i, v.calls[i], k);
    }
  }

  lemma PayMovesOn(w: World, i: nat)
    requires Consistent(w) && i < |w.calls| && w.calls[i].todo != []
    ensures var v := PayOne(w, i);
            && |v.calls| == |w.calls|
            && forall j :: 0 <= j < |w.calls| ==> MovedOn(w.calls[j], v.calls[j])
  {
    assert w.calls[i] in w.calls;
  }

  lemma PayKeepsCalls(w: World, i: nat)
    requires Consistent(w) && i < |w.calls| && w.calls[i].todo != []
    ensures var v := PayOne(w, i);
            forall d :: d in v.calls ==> CallFits(v.store, d)
  {
    PayKeepsMoney(w, i);
    PayMovesOn(w, i);
    var v := PayOne(w, i);
    forall j | 0 <= j < |w.calls| ensures CallFits(v.store, v.calls[j]) {
      assert w.calls[j] in w.calls;
      MovedOnFits(w.store, v.store, w.calls[j], v.calls[j]);
    }
  }

  lemma PayKeeps(w: World, i: nat)
    requires Consistent(w) && i < |w.calls| && w.calls[i].todo != []
    ensures Consistent(PayOne(w, i))
  {
    PayKeepsMoney(w, i);
    PayKeepsBooked(w, i);
    PayKeepsCalls(w, i);
    var v := PayOne(w, i);
    forall r | r in v.store.requests ensures Listed(v.store.orders, r.orders) {
      var k :| 0 <= k < |v.store.requests| && v.store.requests[k] == r;
      assert w.store.requests[k] in w.store.requests;
    }
  }

  lemma QueryKeeps(w: World, i: nat)
    requires Consistent(w)
    ensures Consistent(Advance(w, Query(i)))
  {
    var v := Advance(w, Query(i));
    if v != w {
      var c := w.calls[i];
      assert c in w.calls && w.store.requests[c.request] in w.store.requests;
      FoundIsList(|w.store.orders|, w.store.requests[c.request].orders);
      forall d | d in v.calls ensures CallFits(v.store, d) {
        assert d in w.calls || d == v.calls[i];
      }
      forall k | 0 <= k < |v.store.requests| ensures v.store.requests[k].booked == PaidFor(v.calls, k) {
        CallUpdate(w.calls, i, v.calls[i], k);
      }
    }
  }

  lemma CloseKeeps(w: World, i: nat)
    requires Consistent(w)
    ensures Consistent(Advance(w, Close(i)))
  {
    var v := Advance(w, Close(i));
    if v != w {
      var c := w.calls[i];
      assert c in w.calls && w.store.requests[c.request] in w.store.requests;
      TotalBookedUpdate(w.store.requests, c.request, v.store.requests[c.request]);
      forall r | r in v.store.requests ensures Listed(v.store.orders, r.orders) {
        assert r in w.store.requests || r == v.store.requests[c.request];
      }
      forall d | d in v.calls ensures CallFits(v.store, d) {
        assert d in w.calls || d == v.calls[i];
      }
      forall k | 0 <= k < |v.store.requests| ensures v.store.requests[k].booked == PaidFor(v.calls, k) {
        CallUpdate(w.calls, i, v.calls[i], k);
      }
    }
  }

  lemma OpenKeeps(w: World, k: nat)
    requires Consistent(w)
    ensures Consistent(Advance(w, Open(k)))
  {
    var v := Advance(w, Open(k));
    if v != w {
      var c := v.calls[|w.calls|];
      forall j | 0 <= j < |v.store.requests| ensures v.store.requests[j].booked == PaidFor(v.calls, j) {
        CallAppend(w.calls, c, j);
      }
    }
  }

  lemma AdvanceKeeps(w: World, m: Move)
    requires Consistent(w)
    ensures Consistent(Advance(w, m))
  {
    match m
    case Other(e) => if !e.Verify? { OtherKeeps(w, e); }
    case Open(k) => OpenKeeps(w, k);
    case Query(i) => QueryKeeps(w, i);
    case Pay(i) => if i < |w.calls| && !w.calls[i].over && w.calls[i].todo != [] { PayKeeps(w, i); }
    case Close(i) => CloseKeeps(w, i);
  }

  function Go(w: World, ms: seq<Move>): (v: World)
    requires Consistent(w)
    ensures Consistent(v)
    decreases |ms|
  {
    if ms == [] then w else AdvanceKeeps(w, ms[0]); Go(Advance(w, ms[0]), ms[1..])
  }

  const START := World(EMPTY, [])

  // ---------------------------------------------------------------- sequences of moves

  lemma {:induction false} GoAppend(w: World, a: seq<Move>, b: seq<Move>)
    requires Consistent(w)
    ensures Go(w, a + b) == Go(Go(w, a), b)
    decreases |a|
  {
    if a == [] {
      assert a + b == b;
    } else {
      AdvanceKeeps(w, a[0]);
      GoAppend(Advance(w, a[0]), a[1..], b);
      assert (a + b)[0] == a[0] && (a + b)[1..] == a[1..] + b;
    }
  }

  lemma GoOn(w: World, ms: seq<Move>, m: Move)
    requires Consistent(w)
    ensures Go(w, ms + [m]) == Advance(Go(w, ms), m)
  {
    GoAppend(w, ms, [m]);
    var v := Go(w, ms);
    AdvanceKeeps(v, m);
    assert [m][1..] == [];
    assert Go(v, [m]) == Go(Advance(v, m), []);
  }

  lemma ReachOn(start: World, ms: seq<Move>, w: World, m: Move, v: World)
    requires Consistent(start) && Go(start, ms) == w && Advance(w, m) == v
    ensures Go(start, ms + [m]) == v && Consistent(v)
  {
    GoOn(start, ms, m);
  }

  lemma StartIsConsistent(w: World)
    requires w == START
    ensures Consistent(w)
  {
  }

  /** A delivered cash order that brings in `x` is placed last. */
  lemma OrderCollected(start: World, ms: seq<Move>, w: World, x: nat) returns (more: seq<Move>)
    requires Consistent(start) && Go(start, ms) == w && x > 0
    ensures Go(start, more) == w.(store := w.store.(orders := w.store.orders + [CodOrder(7, true, false, true, x, 0, x)]))
  {
    var n := |w.store.orders|;
    var place, collect := Other(Place(7, true)), Other(Collect(n, true, x));
    var placed := Advance(w, place);
    ReachOn(start, ms, w, place, placed);
    var collected := Advance(placed, collect);
    ReachOn(start, ms + [place], placed, collect, collected);
    assert collected.store.orders == w.store.orders + [CodOrder(7, true, false, true, x, 0, x)];
    more := ms + [place] + [collect];
  }

  // ---------------------------------------------------------------- a call that has begun

  /** The query finds exactly the orders of the request. */
  lemma QueryFinds(w: World, i: nat)
    requires Consistent(w) && i < |w.calls| && !w.calls[i].queried && w.calls[i].request < |w.store.requests|
    ensures var c := w.calls[i];
            var ids := w.store.requests[c.request].orders;
            && InRange(w.store.orders, ids) && Increasing(ids)
            && Advance(w, Query(i)) ==
                 w.(calls := w.calls[i := c.(queried := true, todo := ids, amounts := Amounts(w.store.orders, ids))])
  {
    var c := w.calls[i];
    assert w.store.requests[c.request] in w.store.requests;
    FoundIsList(|w.store.orders|, w.store.requests[c.request].orders);
  }

  /** A call on request `k` up to its loop, when nobody else moves. */
  function Begun(w: World, k: nat): (v: World)
    requires Consistent(w)
    ensures Consistent(v)
  {
    var u := Advance(w, Open(k));
    AdvanceKeeps(w, Open(k));
    AdvanceKeeps(u, Query(|w.calls|));
    Advance(u, Query(|w.calls|))
  }

  lemma OpenAndQuery(w: World, k: nat)
    requires Consistent(w) && k < |w.store.requests| && w.store.requests[k].status == Pending
    ensures var r := w.store.requests[k];
            && InRange(w.store.orders, r.orders)
            && Begun(w, k)
               == World(w.store, w.calls + [Call(k, true, r.orders, Amounts(w.store.orders, r.orders), r.amount, 0, false)])
  {
    var i := |w.calls|;
    var u := Advance(w, Open(k));
    AdvanceKeeps(w, Open(k));
    QueryFinds(u, i);
    var v := Advance(u, Query(i));
    assert u.calls[i := v.calls[i]] == w.calls + [v.calls[i]];
  }
}
