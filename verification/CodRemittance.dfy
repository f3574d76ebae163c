/**
  Remittance of collected COD cash (backend/app/controller/deliveryController.js, lines 75-268,
  with `reconcileCodCash` of backend/app/services/finance/orderFinanceService.js). A rider
  submits an amount, a greedy loop picks orders to cover it; once the gateway reports the
  payment captured, a second greedy loop settles what those orders owe by then.
*/
module CodRemittance {
  import opened Common

  type Id = int

  /** Amounts are in paise; orders are numbered in the order of their creation. */
  datatype CodOrder = CodOrder(rider: Id, isCod: bool, cancelled: bool, collectedFlag: bool,
                               collected: nat, remitted: nat, pending: nat)

  datatype RemitStatus = Pending | Completed | Failed

  /** `booked` is what the request's verification has settled. */
  datatype Remit = Remit(rider: Id, amount: nat, orders: seq<nat>, status: RemitStatus, booked: nat)

  /** `direct` is what an administrator has reconciled outside any request. */
  datatype State = State(orders: seq<CodOrder>, requests: seq<Remit>, direct: nat)

  datatype Outcome = Captured | Declined | StillOpen

  datatype Event =
    | Place(rider: Id, isCod: bool)
    | Collect(at: nat, delivered: bool, amount: int)
    | Cancel(at: nat)
    | Reconcile(at: nat, amount: int)
    | Submit(rider: Id, requested: Option<int>)
    | Verify(request: nat, outcome: Outcome)

  // ---------------------------------------------------------------- the greedy loops

  function Min(a: nat, b: nat): nat {
    if a < b then a else b
  }

  predicate Eligible(o: CodOrder, rider: Id) {
    o.rider == rider && o.isCod && !o.cancelled && o.collectedFlag && o.pending > 0
  }

  /** The orders the submit query returns, oldest first, from position `i` on. */
  function EligibleFrom(orders: seq<CodOrder>, rider: Id, i: nat): seq<nat>
    decreases |orders| - i
  {
    if i >= |orders| then []
    else (if Eligible(orders[i], rider) then [i] else []) + EligibleFrom(orders, rider, i + 1)
  }

  predicate InRange(orders: seq<CodOrder>, ids: seq<nat>) {
    forall k :: 0 <= k < |ids| ==> ids[k] < |orders|
  }

  predicate Increasing(ids: seq<nat>) {
    forall j, k :: 0 <= j < k < |ids| ==> ids[j] < ids[k]
  }

  function Owed(orders: seq<CodOrder>, ids: seq<nat>): nat
    requires InRange(orders, ids)
  {
    if ids == [] then 0 else orders[ids[0]].pending + Owed(orders, ids[1..])
  }

  /** The orders a greedy pass over `ids` touches. */
  function Picked(orders: seq<CodOrder>, ids: seq<nat>, remaining: nat): seq<nat>
    requires InRange(orders, ids)
  {
    if ids == [] then []
    else
      var a := orders[ids[0]].pending;
      if a == 0 || remaining == 0 then Picked(orders, ids[1..], remaining)
      else [ids[0]] + Picked(orders, ids[1..], remaining - Min(a, remaining))
  }

  /** `reconcileCodCash`, which refuses amounts beyond what is still owed. */
  function Reconciled(o: CodOrder, amount: nat): CodOrder
    requires o.remitted + amount <= o.collected
  {
    o.(remitted := o.remitted + amount, pending := o.collected - (o.remitted + amount))
  }

  predicate Sound(o: CodOrder) {
    o.remitted <= o.collected && o.pending == o.collected - o.remitted
  }

  predicate AllSound(orders: seq<CodOrder>) {
    forall i :: 0 <= i < |orders| ==> Sound(orders[i])
  }

  /** The orders after a settling pass over `ids`. */
  function Settled(orders: seq<CodOrder>, ids: seq<nat>, remaining: nat): (r: seq<CodOrder>)
    requires AllSound(orders) && InRange(orders, ids)
    ensures AllSound(r) && |r| == |orders|
    decreases |ids|
  {
    if ids == [] then orders
    else
      var a := orders[ids[0]].pending;
      if a == 0 || remaining == 0 then Settled(orders, ids[1..], remaining)
      else
        var m := Min(a, remaining);
        Settled(orders[ids[0] := Reconciled(orders[ids[0]], m)], ids[1..], remaining - m)
  }

  /** What such a pass books in all. */
  function Booked(orders: seq<CodOrder>, ids: seq<nat>, remaining: nat): nat
    requires AllSound(orders) && InRange(orders, ids)
    decreases |ids|
  {
    if ids == [] then 0
    else
      var a := orders[ids[0]].pending;
      if a == 0 || remaining == 0 then Booked(orders, ids[1..], remaining)
      else
        var m := Min(a, remaining);
        m + Booked(orders[ids[0] := Reconciled(orders[ids[0]], m)], ids[1..], remaining - m)
  }

  // ---------------------------------------------------------------- facts about the passes

  lemma {:induction false} EligibleHas(orders: seq<CodOrder>, rider: Id, i: nat, p: nat)
    ensures p in EligibleFrom(orders, rider, i) <==> i <= p < |orders| && Eligible(orders[p], rider)
    decreases |orders| - i
  {
    if i < |orders| {
      EligibleHas(orders, rider, i + 1, p);
      var rest := EligibleFrom(orders, rider, i + 1);
      if Eligible(orders[i], rider) {
        assert EligibleFrom(orders, rider, i) == [i] + rest;
      } else {
        assert EligibleFrom(orders, rider, i) == [] + rest == rest;
      }
    }
  }

  lemma EligibleFound(orders: seq<CodOrder>, rider: Id, i: nat)
    ensures forall p: nat :: p in EligibleFrom(orders, rider, i) <==> i <= p < |orders| && Eligible(orders[p], rider)
  {
    forall p: nat
      ensures p in EligibleFrom(orders, rider, i) <==> i <= p < |orders| && Eligible(orders[p], rider)
    {
      EligibleHas(orders, rider, i, p);
    }
  }

  lemma ConsIncreasing(i: nat, rest: seq<nat>)
    requires Increasing(rest) && forall p :: p in rest ==> i < p
    ensures Increasing([i] + rest)
  {
    var ids := [i] + rest;
    forall j, k | 0 <= j < k < |ids| ensures ids[j] < ids[k] {
      assert ids[k] == rest[k - 1] && ids[k] in rest;
      assert j > 0 ==> ids[j] == rest[j - 1];
    }
  }

  lemma {:induction false} EligibleOrdered(orders: seq<CodOrder>, rider: Id, i: nat)
    ensures Increasing(EligibleFrom(orders, rider, i))
    decreases |orders| - i
  {
    if i < |orders| {
      EligibleOrdered(orders, rider, i + 1);
      EligibleFound(orders, rider, i + 1);
      var rest := EligibleFrom(orders, rider, i + 1);
      ConsIncreasing(i, rest);
      assert [] + rest == rest;
    }
  }

  lemma EligibleIncreasing(orders: seq<CodOrder>, rider: Id, i: nat)
    ensures var ids := EligibleFrom(orders, rider, i);
            && (forall k :: 0 <= k < |ids| ==> i <= ids[k] < |orders| && Eligible(orders[ids[k]], rider))
            && Increasing(ids)
            && (forall p :: i <= p < |orders| && Eligible(orders[p], rider) ==> p in ids)
  {
    EligibleFound(orders, rider, i);
    EligibleOrdered(orders, rider, i);
    var ids := EligibleFrom(orders, rider, i);
    assert forall k :: 0 <= k < |ids| ==> ids[k] in ids;
  }

  /** Changing an order outside the list changes nothing the list owes. */
  lemma {:induction false} OwedElsewhere(orders: seq<CodOrder>, ids: seq<nat>, p: nat, o: CodOrder)
    requires InRange(orders, ids) && p < |orders| && p !in ids
    ensures Owed(orders[p := o], ids) == Owed(orders, ids)
    decreases |ids|
  {
    if ids != [] {
      assert p !in ids[1..];
      OwedElsewhere(orders, ids[1..], p, o);
    }
  }

  /** A pass books exactly the smaller of the amount and what its orders still owe. */
  lemma {:induction false} BookedIsMin(orders: seq<CodOrder>, ids: seq<nat>, remaining: nat)
    requires AllSound(orders) && InRange(orders, ids) && Increasing(ids)
    ensures Booked(orders, ids, remaining) == Min(remaining, Owed(orders, ids))
    decreases |ids|
  {
    if ids != [] {
      var a := orders[ids[0]].pending;
      if a == 0 || remaining == 0 {
        BookedIsMin(orders, ids[1..], remaining);
      } else {
        var m := Min(a, remaining);
        var o := Reconciled(orders[ids[0]], m);
        BookedIsMin(orders[ids[0] := o], ids[1..], remaining - m);
        OwedElsewhere(orders, ids[1..], ids[0], o);
      }
    }
  }

  function TotalPending(orders: seq<CodOrder>): nat {
    if orders == [] then 0 else orders[0].pending + TotalPending(orders[1..])
  }

  function TotalRemitted(orders: seq<CodOrder>): nat {
    if orders == [] then 0 else orders[0].remitted + TotalRemitted(orders[1..])
  }

  function TotalCollected(orders: seq<CodOrder>): nat {
    if orders == [] then 0 else orders[0].collected + TotalCollected(orders[1..])
  }

  lemma {:induction false} TotalsUpdate(orders: seq<CodOrder>, p: nat, o: CodOrder)
    requires p < |orders|
    ensures TotalPending(orders[p := o]) == TotalPending(orders) - orders[p].pending + o.pending
    ensures TotalRemitted(orders[p := o]) == TotalRemitted(orders) - orders[p].remitted + o.remitted
    ensures TotalCollected(orders[p := o]) == TotalCollected(orders) - orders[p].collected + o.collected
    decreases |orders|
  {
    if p > 0 {
      TotalsUpdate(orders[1..], p - 1, o);
      assert orders[p := o][1..] == orders[1..][p - 1 := o];
    } else {
      assert orders[p := o][1..] == orders[1..];
    }
  }

  lemma {:induction false} TotalsAppend(orders: seq<CodOrder>, o: CodOrder)
    ensures TotalPending(orders + [o]) == TotalPending(orders) + o.pending
    ensures TotalRemitted(orders + [o]) == TotalRemitted(orders) + o.remitted
    ensures TotalCollected(orders + [o]) == TotalCollected(orders) + o.collected
    decreases |orders|
  {
    if orders == [] {
      assert orders + [o] == [o] && [o][1..] == [];
    } else {
      TotalsAppend(orders[1..], o);
      assert (orders + [o])[1..] == orders[1..] + [o];
    }
  }

  lemma {:induction false} SoundTotals(orders: seq<CodOrder>)
    requires AllSound(orders)
    ensures TotalPending(orders) + TotalRemitted(orders) == TotalCollected(orders)
    decreases |orders|
  {
    if orders != [] {
      SoundTotals(orders[1..]);
    }
  }

  /** One iteration of the pass; settling nothing is skipping the order. */
  lemma OnePass(orders: seq<CodOrder>, todo: seq<nat>, remaining: nat, m: nat, next: seq<CodOrder>)
    requires AllSound(orders) && InRange(orders, todo) && todo != []
    requires m == Min(orders[todo[0]].pending, remaining)
    requires next == orders[todo[0] := Reconciled(orders[todo[0]], m)]
    ensures Settled(orders, todo, remaining) == Settled(next, todo[1..], remaining - m)
    ensures Booked(orders, todo, remaining) == m + Booked(next, todo[1..], remaining - m)
  {
    if m == 0 {
      assert next == orders;
    }
  }

  lemma {:induction false} SettledElsewhere(orders: seq<CodOrder>, ids: seq<nat>, remaining: nat, p: nat)
    requires AllSound(orders) && InRange(orders, ids) && p < |orders| && p !in ids
    ensures Settled(orders, ids, remaining)[p] == orders[p]
    decreases |ids|
  {
    if ids != [] {
      var a := orders[ids[0]].pending;
      if a == 0 || remaining == 0 {
        SettledElsewhere(orders, ids[1..], remaining, p);
      } else {
        var m := Min(a, remaining);
        SettledElsewhere(orders[ids[0] := Reconciled(orders[ids[0]], m)], ids[1..], remaining - m, p);
      }
    }
  }

  lemma {:induction false} SettledTotals(orders: seq<CodOrder>, ids: seq<nat>, remaining: nat)
    requires AllSound(orders) && InRange(orders, ids)
    ensures var t := Settled(orders, ids, remaining);
            && TotalPending(t) + Booked(orders, ids, remaining) == TotalPending(orders)
            && TotalRemitted(t) == TotalRemitted(orders) + Booked(orders, ids, remaining)
            && TotalCollected(t) == TotalCollected(orders)
    decreases |ids|
  {
    if ids != [] {
      var a := orders[ids[0]].pending;
      if a == 0 || remaining == 0 {
        SettledTotals(orders, ids[1..], remaining);
      } else {
        var m := Min(a, remaining);
        var o := Reconciled(orders[ids[0]], m);
        TotalsUpdate(orders, ids[0], o);
        SettledTotals(orders[ids[0] := o], ids[1..], remaining - m);
      }
    }
  }

  /** What a pass takes off the pending total it adds to the remitted total, and no order outside
      its list moves. */
  lemma SettledMovesBooked(orders: seq<CodOrder>, ids: seq<nat>, remaining: nat)
    requires AllSound(orders) && InRange(orders, ids)
    ensures var t := Settled(orders, ids, remaining);
            && TotalPending(t) + Booked(orders, ids, remaining) == TotalPending(orders)
            && TotalRemitted(t) == TotalRemitted(orders) + Booked(orders, ids, remaining)
            && TotalCollected(t) == TotalCollected(orders)
            && (forall p :: 0 <= p < |orders| && p !in ids ==> t[p] == orders[p])
  {
    SettledTotals(orders, ids, remaining);
    forall p: nat | p < |orders| && p !in ids ensures Settled(orders, ids, remaining)[p] == orders[p] {
      SettledElsewhere(orders, ids, remaining, p);
    }
  }

  lemma {:induction false} PickedFrom(orders: seq<CodOrder>, ids: seq<nat>, remaining: nat)
    requires InRange(orders, ids) && Increasing(ids)
    ensures var ps := Picked(orders, ids, remaining);
            && (forall p :: p in ps ==> p in ids && orders[p].pending > 0)
            && Increasing(ps)
    decreases |ids|
  {
    if ids != [] {
      var a := orders[ids[0]].pending;
      var left := if a == 0 || remaining == 0 then remaining else remaining - Min(a, remaining);
      PickedFrom(orders, ids[1..], left);
      var rest := Picked(orders, ids[1..], left);
      assert forall p :: p in ids[1..] ==> p in ids && p > ids[0];
      var ps := Picked(orders, ids, remaining);
      if a != 0 && remaining != 0 {
        assert ps == [ids[0]] + rest;
        ConsIncreasing(ids[0], rest);
      }
    }
  }

  /** A pass comes to every order of the list with something left to settle. */
  predicate Needed(orders: seq<CodOrder>, ids: seq<nat>, amount: nat)
    requires InRange(orders, ids)
  {
    ids == [] || (
      var a := orders[ids[0]].pending;
      a > 0 && amount > 0 && Needed(orders, ids[1..], amount - Min(a, amount)))
  }

  /** The picked orders are all needed, and cover as much of the amount as the whole list does. */
  lemma {:induction false} PickedCover(orders: seq<CodOrder>, ids: seq<nat>, amount: nat)
    requires InRange(orders, ids) && Increasing(ids)
    ensures InRange(orders, Picked(orders, ids, amount))
    ensures Min(amount, Owed(orders, Picked(orders, ids, amount))) == Min(amount, Owed(orders, ids))
    ensures Needed(orders, Picked(orders, ids, amount), amount)
    decreases |ids|
  {
    PickedFrom(orders, ids, amount);
    if ids != [] {
      var a := orders[ids[0]].pending;
      var left := if a == 0 || amount == 0 then amount else amount - Min(a, amount);
      PickedCover(orders, ids[1..], left);
      var rest := Picked(orders, ids[1..], left);
      var ps := Picked(orders, ids, amount);
      if a != 0 && amount != 0 {
        assert ps == [ids[0]] + rest && ps[1..] == rest;
      }
    }
  }

  /** The needed list stays needed when an order outside it changes. */
  lemma {:induction false} NeededElsewhere(orders: seq<CodOrder>, ids: seq<nat>, amount: nat, p: nat, o: CodOrder)
    requires InRange(orders, ids) && p < |orders| && p !in ids
    ensures Needed(orders[p := o], ids, amount) == Needed(orders, ids, amount)
    decreases |ids|
  {
    if ids != [] {
      assert p !in ids[1..];
      NeededElsewhere(orders, ids[1..], amount - Min(orders[ids[0]].pending, amount), p, o);
    }
  }

  /** What a settling pass over a needed list leaves behind: all but the last order paid in full. */
  lemma {:induction false} NeededSettled(orders: seq<CodOrder>, ids: seq<nat>, amount: nat)
    requires AllSound(orders) && InRange(orders, ids) && Increasing(ids) && Needed(orders, ids, amount)
    ensures var t := Settled(orders, ids, amount);
            forall k :: 0 <= k < |ids| ==>
              && t[ids[k]].remitted > orders[ids[k]].remitted
              && (k < |ids| - 1 ==> t[ids[k]].pending == 0)
    decreases |ids|
  {
    if ids != [] {
      var a := orders[ids[0]].pending;
      var m := Min(a, amount);
      var o := Reconciled(orders[ids[0]], m);
      var next := orders[ids[0] := o];
      var rest := ids[1..];
      assert ids[0] !in rest;
      NeededElsewhere(orders, rest, amount - m, ids[0], o);
      NeededSettled(next, rest, amount - m);
      SettledMovesBooked(next, rest, amount - m);
      var t := Settled(next, rest, amount - m);
      assert t[ids[0]] == o;
      forall k | 0 <= k < |ids|
        ensures t[ids[k]].remitted > orders[ids[k]].remitted
        ensures k < |ids| - 1 ==> t[ids[k]].pending == 0
      {
        if k > 0 {
          assert ids[k] == rest[k - 1];
        }
      }
    }
  }

  /** When the list also covers the amount, the pass settles it to the last paisa, on the orders of
      the list and no others. */
  lemma SettledExactly(orders: seq<CodOrder>, ids: seq<nat>, amount: nat)
    requires AllSound(orders) && InRange(orders, ids) && Increasing(ids) && Needed(orders, ids, amount)
    requires amount <= Owed(orders, ids)
    ensures Booked(orders, ids, amount) == amount
    ensures var t := Settled(orders, ids, amount);
            && (forall p :: 0 <= p < |orders| ==> (t[p].remitted > orders[p].remitted <==> p in ids))
            && (forall p :: 0 <= p < |orders| && p !in ids ==> t[p] == orders[p])
            && (forall j :: 0 <= j < |ids| - 1 ==> t[ids[j]].pending == 0)
  {
    BookedIsMin(orders, ids, amount);
    NeededSettled(orders, ids, amount);
    SettledMovesBooked(orders, ids, amount);
    var t := Settled(orders, ids, amount);
    forall p | 0 <= p < |orders| ensures t[p].remitted > orders[p].remitted <==> p in ids {
      if p in ids {
        var j :| 0 <= j < |ids| && ids[j] == p;
      }
    }
  }

  // ---------------------------------------------------------------- the endpoints

  /** The stored orders a list of order numbers names, oldest first, from position `i` on. */
  function Found(n: nat, ids: seq<nat>, i: nat): seq<nat>
    decreases n - i
  {
    if i >= n then [] else (if i in ids then [i] else []) + Found(n, ids, i + 1)
  }

  predicate ReconcileAccepted(o: CodOrder, amount: int) {
    o.isCod && o.remitted < o.collected && 0 < amount <= o.collected - o.remitted
  }

  /** The request a submit creates, if it is accepted. */
  function Submission(orders: seq<CodOrder>, rider: Id, requested: Option<int>): Option<Remit> {
    var ids := EligibleFrom(orders, rider, 0);
    EligibleIncreasing(orders, rider, 0);
    var available := Owed(orders, ids);
    var amount := if requested.Some? then requested.value else available;
    if ids == [] || amount <= 0 || amount > available then None
    else Some(Remit(rider, amount, Picked(orders, ids, amount), Pending, 0))
  }

  /** Everything but verifications. */
  function Elsewhere(s: State, e: Event): State
    requires AllSound(s.orders) && !e.Verify?
  {
    match e
    case Place(rider, isCod) =>
      s.(orders := s.orders + [CodOrder(rider, isCod, false, false, 0, 0, 0)])
    case Collect(at, delivered, amount) =>
      if at < |s.orders| && s.orders[at].isCod && delivered && !s.orders[at].collectedFlag && amount > 0 then
        var o := s.orders[at];
        s.(orders := s.orders[at := o.(collected := o.collected + amount,
                                       pending := o.collected + amount - o.remitted,
                                       collectedFlag := true)])
      else s
    case Cancel(at) =>
      if at < |s.orders| then s.(orders := s.orders[at := s.orders[at].(cancelled := true)]) else s
    case Reconcile(at, amount) =>
      if at < |s.orders| && ReconcileAccepted(s.orders[at], amount)
      then s.(orders := s.orders[at := Reconciled(s.orders[at], amount)], direct := s.direct + amount)
      else s
    case Submit(rider, requested) =>
      var r := Submission(s.orders, rider, requested);
      if r.Some? then s.(requests := s.requests + [r.value]) else s
  }

  /** Each call as a whole; a request that is no longer pending is reported and left alone. */
  function Step(s: State, e: Event): State
    requires Inv(s)
  {
    if !e.Verify? then Elsewhere(s, e)
    else if e.request >= |s.requests| || s.requests[e.request].status != Pending then s
    else
      var r := s.requests[e.request];
      match e.outcome
      case Captured =>
        var ids := Found(|s.orders|, r.orders, 0);
        assert r in s.requests;
        FoundIsList(|s.orders|, r.orders);
        s.(orders := Settled(s.orders, ids, r.amount),
           requests := s.requests[e.request := r.(status := Completed, booked := Booked(s.orders, ids, r.amount))])
      case Declined => s.(requests := s.requests[e.request := r.(status := Failed)])
      case StillOpen => s
  }

  // ---------------------------------------------------------------- what every step keeps

  function TotalBooked(requests: seq<Remit>): nat {
    if requests == [] then 0 else requests[0].booked + TotalBooked(requests[1..])
  }

  /** A list of COD orders, oldest first. */
  predicate Listed(orders: seq<CodOrder>, ids: seq<nat>) {
    InRange(orders, ids) && Increasing(ids) && forall p :: p in ids ==> orders[p].isCod
  }

  predicate WellFormed(orders: seq<CodOrder>, r: Remit) {
    Listed(orders, r.orders) && r.booked <= r.amount && (r.status != Completed ==> r.booked == 0)
  }

  predicate MoneyAddsUp(s: State) {
    AllSound(s.orders) && TotalRemitted(s.orders) == TotalBooked(s.requests) + s.direct
  }

  predicate Inv(s: State) {
    MoneyAddsUp(s) && forall r :: r in s.requests ==> WellFormed(s.orders, r)
  }

  lemma {:induction false} SameIncreasing(a: seq<nat>, b: seq<nat>)
    requires Increasing(a) && Increasing(b)
    requires forall p: nat :: p in a <==> p in b
    ensures a == b
    decreases |a|
  {
    if a != [] {
      assert a[0] in a;
    }
    if b != [] {
      assert b[0] in b;
    }
    if a != [] && b != [] {
      assert a[0] in b && b[0] in a;
      assert a[0] == b[0];
      forall p: nat ensures p in a[1..] <==> p in b[1..] {
        assert p in a[1..] <==> p in a && p != a[0];
        assert p in b[1..] <==> p in b && p != b[0];
      }
      SameIncreasing(a[1..], b[1..]);
      assert a == [a[0]] + a[1..] && b == [b[0]] + b[1..];
    }
  }

  lemma {:induction false} FoundMembers(n: nat, ids: seq<nat>, i: nat)
    ensures Increasing(Found(n, ids, i))
    ensures forall p: nat :: p in Found(n, ids, i) <==> i <= p < n && p in ids
    decreases n - i
  {
    if i < n {
      FoundMembers(n, ids, i + 1);
      var rest := Found(n, ids, i + 1);
      if i in ids {
        assert Found(n, ids, i) == [i] + rest;
        ConsIncreasing(i, rest);
      } else {
        assert Found(n, ids, i) == [] + rest == rest;
      }
    }
  }

  /** A request keeps its orders in the order the query finds them. */
  lemma FoundIsList(n: nat, ids: seq<nat>)
    requires Increasing(ids) && forall k :: 0 <= k < |ids| ==> ids[k] < n
    ensures Found(n, ids, 0) == ids
  {
    FoundMembers(n, ids, 0);
    SameIncreasing(Found(n, ids, 0), ids);
  }

  lemma {:induction false} TotalBookedUpdate(requests: seq<Remit>, k: nat, r: Remit)
    requires k < |requests|
    ensures TotalBooked(requests[k := r]) == TotalBooked(requests) - requests[k].booked + r.booked
    decreases |requests|
  {
    if k > 0 {
      TotalBookedUpdate(requests[1..], k - 1, r);
      assert requests[k := r][1..] == requests[1..][k - 1 := r];
    } else {
      assert requests[k := r][1..] == requests[1..];
    }
  }

  lemma {:induction false} TotalBookedAppend(requests: seq<Remit>, r: Remit)
    ensures TotalBooked(requests + [r]) == TotalBooked(requests) + r.booked
    decreases |requests|
  {
    if requests == [] {
      assert requests + [r] == [r] && [r][1..] == [];
    } else {
      TotalBookedAppend(requests[1..], r);
      assert (requests + [r])[1..] == requests[1..] + [r];
    }
  }

  /** Orders are only ever added, keep their rider and their kind, and stay collected. */
  predicate Grown(before: seq<CodOrder>, after: seq<CodOrder>) {
    |before| <= |after| && forall i :: 0 <= i < |before| ==>
      && after[i].rider == before[i].rider && after[i].isCod == before[i].isCod
      && (before[i].collectedFlag ==> after[i].collectedFlag)
  }

  lemma {:induction false} SettledGrown(orders: seq<CodOrder>, ids: seq<nat>, remaining: nat)
    requires AllSound(orders) && InRange(orders, ids)
    ensures Grown(orders, Settled(orders, ids, remaining))
    decreases |ids|
  {
    if ids != [] {
      var a := orders[ids[0]].pending;
      if a == 0 || remaining == 0 {
        SettledGrown(orders, ids[1..], remaining);
      } else {
        var m := Min(a, remaining);
        SettledGrown(orders[ids[0] := Reconciled(orders[ids[0]], m)], ids[1..], remaining - m);
      }
    }
  }

  /** What a submit asks for: no more than the picked orders owe, each of them needed. */
  lemma SubmissionMeaning(orders: seq<CodOrder>, rider: Id, requested: Option<int>)
    ensures var r := Submission(orders, rider, requested);
            r.Some? ==>
              && WellFormed(orders, r.value) && r.value.status == Pending && r.value.rider == rider
              && (requested.Some? ==> r.value.amount == requested.value)
              && (forall p :: p in r.value.orders ==>
                    && p < |orders| && orders[p].rider == rider && orders[p].isCod && !orders[p].cancelled
                    && orders[p].collectedFlag && orders[p].pending > 0)
              && Needed(orders, r.value.orders, r.value.amount)
              && 0 < r.value.amount <= Owed(orders, r.value.orders)
  {
    var r := Submission(orders, rider, requested);
    if r.Some? {
      var ids := EligibleFrom(orders, rider, 0);
      EligibleIncreasing(orders, rider, 0);
      PickedFrom(orders, ids, r.value.amount);
      PickedCover(orders, ids, r.value.amount);
    }
  }

  /** The effect of a captured verification on a well-formed request. */
  lemma VerifyEffect(s: State, k: nat)
    requires Inv(s) && k < |s.requests| && s.requests[k].status == Pending
    ensures var r := s.requests[k];
            && WellFormed(s.orders, r)
            && Step(s, Verify(k, Captured)) ==
                 s.(orders := Settled(s.orders, r.orders, r.amount),
                    requests := s.requests[k := r.(status := Completed, booked := Min(r.amount, Owed(s.orders, r.orders)))])
            && Booked(s.orders, r.orders, r.amount) == Min(r.amount, Owed(s.orders, r.orders))
  {
    var r := s.requests[k];
    assert r in s.requests;
    FoundIsList(|s.orders|, r.orders);
    BookedIsMin(s.orders, r.orders, r.amount);
  }

  lemma StepGrows(s: State, e: Event)
    requires Inv(s)
    ensures Grown(s.orders, Step(s, e).orders)
  {
    if e.Verify? && e.request < |s.requests| && s.requests[e.request].status == Pending && e.outcome == Captured {
      var r := s.requests[e.request];
      VerifyEffect(s, e.request);
      SettledGrown(s.orders, r.orders, r.amount);
    }
  }

  lemma ElsewhereKeepsMoney(s: State, e: Event)
    requires MoneyAddsUp(s) && !e.Verify?
    ensures MoneyAddsUp(Elsewhere(s, e))
  {
    match e
    case Place(rider, isCod) =>
      TotalsAppend(s.orders, CodOrder(rider, isCod, false, false, 0, 0, 0));
    case Collect(at, delivered, amount) =>
      if Elsewhere(s, e) != s {
        TotalsUpdate(s.orders, at, Elsewhere(s, e).orders[at]);
      }
    case Cancel(at) =>
      if at < |s.orders| {
        TotalsUpdate(s.orders, at, s.orders[at].(cancelled := true));
      }
    case Reconcile(at, amount) =>
      if at < |s.orders| && ReconcileAccepted(s.orders[at], amount) {
        TotalsUpdate(s.orders, at, Reconciled(s.orders[at], amount));
      }
    case Submit(rider, requested) =>
      SubmissionMeaning(s.orders, rider, requested);
      var r := Submission(s.orders, rider, requested);
      if r.Some? {
        TotalBookedAppend(s.requests, r.value);
      }
  }

  lemma StepKeepsMoney(s: State, e: Event)
    requires Inv(s)
    ensures MoneyAddsUp(Step(s, e))
  {
    if !e.Verify? {
      ElsewhereKeepsMoney(s, e);
    } else if e.request < |s.requests| && s.requests[e.request].status == Pending {
      var r := s.requests[e.request];
      assert r in s.requests;
      if e.outcome == Captured {
        VerifyEffect(s, e.request);
        SettledMovesBooked(s.orders, r.orders, r.amount);
      }
      TotalBookedUpdate(s.requests, e.request, Step(s, e).requests[e.request]);
    }
  }

  lemma StepKeepsRequests(s: State, e: Event)
    requires Inv(s)
    ensures var t := Step(s, e); forall r :: r in t.requests ==> WellFormed(t.orders, r)
  {
    var t := Step(s, e);
    StepGrows(s, e);
    if e.Submit? {
      SubmissionMeaning(s.orders, e.rider, e.requested);
    }
    if e.Verify? && e.request < |s.requests| && s.requests[e.request].status == Pending {
      VerifyEffect(s, e.request);
    }
    forall r | r in t.requests ensures WellFormed(t.orders, r) {
      assert r in s.requests || e.Submit? || e.Verify?;
    }
  }

  lemma StepKeeps(s: State, e: Event)
    requires Inv(s)
    ensures Inv(Step(s, e))
  {
    StepKeepsMoney(s, e);
    StepKeepsRequests(s, e);
  }

  // ---------------------------------------------------------------- whole runs

  function Run(s: State, es: seq<Event>): (t: State)
    requires Inv(s)
    ensures Inv(t)
    decreases |es|
  {
    if es == [] then s else StepKeeps(s, es[0]); Run(Step(s, es[0]), es[1..])
  }

  /** A run takes its events one after the other. */
  lemma {:induction false} RunOn(s: State, es: seq<Event>, e: Event)
    requires Inv(s)
    ensures Run(s, es + [e]) == Step(Run(s, es), e)
    decreases |es|
  {
    if es == [] {
      assert ([] + [e])[1..] == [];
      StepKeeps(s, e);
      assert Run(s, [] + [e]) == Run(Step(s, e), []);
    } else {
      StepKeeps(s, es[0]);
      RunOn(Step(s, es[0]), es[1..], e);
      assert (es + [e])[0] == es[0] && (es + [e])[1..] == es[1..] + [e];
    }
  }

  const EMPTY := State([], [], 0)

  /**
    Over any run of submits, verifications, collections, cancellations and direct
    reconciliations: nothing owed is ever negative or out of step with what was collected and
    remitted, and pending cash plus booked cash is all the cash collected.
  */
  lemma RunConserves(es: seq<Event>)
    ensures var t := Run(EMPTY, es);
            && (forall i :: 0 <= i < |t.orders| ==> t.orders[i].pending == t.orders[i].collected - t.orders[i].remitted)
            && TotalPending(t.orders) + TotalBooked(t.requests) + t.direct == TotalCollected(t.orders)
  {
    var t := Run(EMPTY, es);
    SoundTotals(t.orders);
  }

  predicate SameRequest(before: Remit, after: Remit) {
    && before.rider == after.rider && before.amount == after.amount && before.orders == after.orders
    && (before.status != Pending ==> before == after)
  }

  /** No step forgets a request or changes what it asked for, and a settled or failed one stays as it is. */
  lemma StepKeepsRequest(s: State, e: Event, k: nat)
    requires Inv(s) && k < |s.requests|
    ensures k < |Step(s, e).requests| && SameRequest(s.requests[k], Step(s, e).requests[k])
  {
  }

  lemma {:induction false} RunKeepsRequest(s: State, es: seq<Event>, k: nat)
    requires Inv(s) && k < |s.requests|
    ensures k < |Run(s, es).requests| && SameRequest(s.requests[k], Run(s, es).requests[k])
    decreases |es|
  {
    if es != [] {
      StepKeeps(s, es[0]);
      StepKeepsRequest(s, es[0], k);
      RunKeepsRequest(Step(s, es[0]), es[1..], k);
    }
  }

  /**
    Each request books at most once, and then exactly the smaller of its amount and what its
    orders still owe: a captured verification of a pending request moves that much from pending
    to booked and touches no other order or request, and whatever happens afterwards, verifying
    it again changes nothing.
  */
  lemma EachRequestBooksOnce(s: State, k: nat, later: seq<Event>, again: Outcome)
    requires Inv(s) && k < |s.requests| && s.requests[k].status == Pending
    ensures var r := s.requests[k];
            var t := Step(s, Verify(k, Captured));
            && Inv(t) && InRange(s.orders, r.orders)
            && t.requests[k].status == Completed
            && t.requests[k].booked == Min(r.amount, Owed(s.orders, r.orders))
            && TotalPending(t.orders) == TotalPending(s.orders) - t.requests[k].booked
            && (forall p :: 0 <= p < |s.orders| && p !in r.orders ==> t.orders[p] == s.orders[p])
            && (forall j :: 0 <= j < |s.requests| && j != k ==> t.requests[j] == s.requests[j])
            && var u := Run(t, later);
               k < |u.requests| && u.requests[k] == t.requests[k] && Step(u, Verify(k, again)) == u
  {
    var r := s.requests[k];
    StepKeeps(s, Verify(k, Captured));
    VerifyEffect(s, k);
    SettledMovesBooked(s.orders, r.orders, r.amount);
    RunKeepsRequest(Step(s, Verify(k, Captured)), later, k);
  }

  /** Lists of orders that owe the same are needed alike and owe the same in all. */
  lemma {:induction false} SamePending(a: seq<CodOrder>, b: seq<CodOrder>, ids: seq<nat>, amount: nat)
    requires InRange(a, ids) && InRange(b, ids)
    requires forall k :: 0 <= k < |ids| ==> a[ids[k]].pending == b[ids[k]].pending
    ensures Owed(a, ids) == Owed(b, ids)
    ensures Needed(a, ids, amount) ==> Needed(b, ids, amount)
    decreases |ids|
  {
    if ids != [] {
      SamePending(a, b, ids[1..], amount - Min(a[ids[0]].pending, amount));
    }
  }

  /**
    When, whatever happens between submit and verify, the orders picked at submit owe the same
    in the end, the verification settles the requested amount to the last paisa: it pays every
    picked order something, all but the last in full, and no other order anything.
  */
  lemma UndisturbedVerifyIsExact(s: State, rider: Id, requested: Option<int>, between: seq<Event>)
    requires Inv(s) && Submission(s.orders, rider, requested).Some?
    requires var u := Run(s, [Submit(rider, requested)] + between);
             && |s.requests| < |u.requests| && u.requests[|s.requests|].status == Pending
             && (forall p :: p in Submission(s.orders, rider, requested).value.orders ==>
                   p < |s.orders| && p < |u.orders| && u.orders[p].pending == s.orders[p].pending)
    ensures var r := Submission(s.orders, rider, requested).value;
            var k := |s.requests|;
            var u := Run(s, [Submit(rider, requested)] + between);
            var t := Step(u, Verify(k, Captured));
            && |t.orders| == |u.orders| && InRange(t.orders, r.orders) && r.orders != []
            && t.requests[k].booked == r.amount
            && (forall p :: 0 <= p < |u.orders| ==> (t.orders[p].remitted > u.orders[p].remitted <==> p in r.orders))
            && (forall p :: 0 <= p < |u.orders| && p !in r.orders ==> t.orders[p] == u.orders[p])
            && (forall j :: 0 <= j < |r.orders| - 1 ==> t.orders[r.orders[j]].pending == 0)
  {
    var r := Submission(s.orders, rider, requested).value;
    var k := |s.requests|;
    var s1 := Step(s, Submit(rider, requested));
    StepKeeps(s, Submit(rider, requested));
    SubmissionMeaning(s.orders, rider, requested);
    RunKeepsRequest(s1, between, k);
    var es := [Submit(rider, requested)] + between;
    assert es[1..] == between && es[0] == Submit(rider, requested);
    var u := Run(s, es);
    assert u == Run(s1, between);
    VerifyEffect(u, k);
    SamePending(s.orders, u.orders, r.orders, r.amount);
    SettledExactly(u.orders, r.orders, r.amount);
  }
}
