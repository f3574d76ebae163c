/**
  The cash remittance endpoints on the stored orders and requests
  (backend/app/controller/deliveryController.js, lines 78-268), with the collection and
  reconciliation of cash they rest on (backend/app/services/finance/orderFinanceService.js, lines
  455-600 and 885-981).

  Both greedy loops are loops here too. The second one works on amounts that were read before it
  began, which is why it is proved against the pass that reads as it goes.
*/
module CodHandlers {
  import opened Common
  import opened CodRemittance
  import opened CodSubmissions

  datatype Answer = Ok | BadRequest | NotFound | AlreadyProcessed

  /** The settling loop before its `i`th order: `amounts` still hold what the orders to come owe,
      and what is left to do completes the whole pass. */
  ghost predicate Settling(was: seq<CodOrder>, found: seq<nat>, amounts: seq<nat>, amount: nat,
                           i: nat, orders: seq<CodOrder>, remaining: nat, total: nat) {
    && AllSound(was) && AllSound(orders) && |orders| == |was| && InRange(was, found) && Increasing(found)
    && i <= |found| == |amounts|
    && (forall p :: p in found ==> orders[p].isCod)
    && (forall j :: i <= j < |found| ==> amounts[j] == orders[found[j]].pending)
    && Settled(orders, found[i..], remaining) == Settled(was, found, amount)
    && total + Booked(orders, found[i..], remaining) == Booked(was, found, amount)
  }

  lemma SettlingOn(was: seq<CodOrder>, found: seq<nat>, amounts: seq<nat>, amount: nat,
                   i: nat, orders: seq<CodOrder>, remaining: nat, total: nat)
    requires Settling(was, found, amounts, amount, i, orders, remaining, total) && i < |found|
    ensures var o, m := orders[found[i]], Min(amounts[i], remaining);
            && o.remitted + m <= o.collected
            && (m > 0 ==> ReconcileAccepted(o, m))
            && (m == 0 ==> orders[found[i] := Reconciled(o, m)] == orders)
            && Settling(was, found, amounts, amount, i + 1, orders[found[i] := Reconciled(o, m)], remaining - m, total + m)
  {
    var m := Min(amounts[i], remaining);
    var next := orders[found[i] := Reconciled(orders[found[i]], m)];
    assert found[i] in found && found[i..][1..] == found[i + 1..];
    OnePass(orders, found[i..], remaining, m, next);
  }

  class CashDesk {
    var orders: seq<CodOrder>
    var requests: seq<Remit>
    var direct: nat                  // reconciled by an administrator, outside any request

    ghost function View(): State
      reads this
    {
      State(orders, requests, direct)
    }

    constructor ()
      ensures View() == EMPTY
    {
      orders, requests, direct := [], [], 0;
    }

    /** The submit query: the rider's collected COD orders with cash still pending, oldest first. */
    method FindEligible(rider: Id) returns (ids: seq<nat>)
      ensures ids == EligibleFrom(orders, rider, 0)
    {
      ids := [];
      for i := 0 to |orders|
        invariant ids + EligibleFrom(orders, rider, i) == EligibleFrom(orders, rider, 0)
      {
        if Eligible(orders[i], rider) {
          assert ids + ([i] + EligibleFrom(orders, rider, i + 1)) == (ids + [i]) + EligibleFrom(orders, rider, i + 1);
          ids := ids + [i];
        }
      }
    }

    /** `reconcileCodCash`: all or nothing. */
    method ReconcileCodCash(at: nat, amount: int) returns (done: bool)
      requires at < |orders|
      modifies this`orders
      ensures done <==> ReconcileAccepted(old(orders)[at], amount)
      ensures orders == if done then old(orders)[at := Reconciled(old(orders)[at], amount)] else old(orders)
    {
      var o := orders[at];
      if !o.isCod || amount <= 0 {
        return false;
      }
      var owed := o.collected - o.remitted;
      if owed <= 0 || amount > owed {
        return false;
      }
      var nextRemitted := o.remitted + amount;
      orders := orders[at := o.(remitted := nextRemitted, pending := o.collected - nextRemitted)];
      return true;
    }

    /** The administrator's own endpoint. */
    method ReconcileDirectly(at: nat, amount: int)
      requires Inv(View())
      modifies this
      ensures View() == Step(old(View()), Reconcile(at, amount))
    {
      if at < |orders| {
        var done := ReconcileCodCash(at, amount);
        if done {
          direct := direct + amount;
        }
      }
    }

    method MarkCodCollected(at: nat, delivered: bool, amount: int)
      requires Inv(View())
      modifies this
      ensures View() == Step(old(View()), Collect(at, delivered, amount))
    {
      if at >= |orders| || !orders[at].isCod || !delivered || orders[at].collectedFlag || amount <= 0 {
        return;
      }
      var o := orders[at];
      var collected := o.collected + amount;
      assert o in orders;
      orders := orders[at := o.(collected := collected, pending := collected - o.remitted, collectedFlag := true)];
    }

    /** The `reduce` over the pending amounts. */
    method TotalAvailable(ids: seq<nat>) returns (available: nat)
      requires InRange(orders, ids)
      ensures available == Owed(orders, ids)
    {
      available := 0;
      for i := 0 to |ids|
        invariant available + Owed(orders, ids[i..]) == Owed(orders, ids)
      {
        assert ids[i..][1..] == ids[i + 1..];
        available := available + orders[ids[i]].pending;
      }
    }

    /** Which orders the amount will settle. */
    method PickOrders(ids: seq<nat>, amount: nat) returns (settledOrders: seq<nat>)
      requires InRange(orders, ids)
      ensures settledOrders == Picked(orders, ids, amount)
    {
      settledOrders := [];
      var remaining := amount;
      for i := 0 to |ids|
        invariant settledOrders + Picked(orders, ids[i..], remaining) == Picked(orders, ids, amount)
      {
        assert ids[i..][1..] == ids[i + 1..];
        var owed := orders[ids[i]].pending;
        if owed > 0 && remaining > 0 {
          var settle := Min(owed, remaining);
          assert settledOrders + ([ids[i]] + Picked(orders, ids[i + 1..], remaining - settle))
              == (settledOrders + [ids[i]]) + Picked(orders, ids[i + 1..], remaining - settle);
          remaining := remaining - settle;
          settledOrders := settledOrders + [ids[i]];
        }
      }
    }

    /** The checks of the submit and the request they lead to. */
    method PrepareRequest(rider: Id, requested: Option<int>) returns (request: Option<Remit>)
      ensures request == Submission(orders, rider, requested)
    {
      var ids := FindEligible(rider);
      EligibleIncreasing(orders, rider, 0);
      if ids == [] {
        return None;
      }
      var available := TotalAvailable(ids);
      if requested.Some? && requested.value <= 0 {
        return None;
      }
      var amount := if requested.Some? then requested.value else available;
      if amount <= 0 || amount > available {
        return None;
      }
      var settledOrders := PickOrders(ids, amount);
      return Some(Remit(rider, amount, settledOrders, Pending, 0));
    }

    /** Accepts what asks for no more than the rider's own cash, and then covers only collected COD
        orders of the rider's own. */
    method SubmitDeliveryCodCashToAdmin(rider: Id, requested: Option<int>) returns (answer: Answer)
      requires Inv(View())
      modifies this`requests
      ensures View() == Step(old(View()), Submit(rider, requested))
      ensures answer == if 0 < (if requested.Some? then requested.value else OwnCash(orders, rider)) <= OwnCash(orders, rider)
                        then Ok else BadRequest
      ensures answer != Ok ==> requests == old(requests)
      ensures answer == Ok ==> |requests| == |old(requests)| + 1 && requests[..|old(requests)|] == old(requests)
      ensures answer == Ok ==>
                var r := requests[|old(requests)|];
                && r.rider == rider && r.amount == (if requested.Some? then requested.value else OwnCash(orders, rider))
                && forall p :: p in r.orders ==>
                     && p < |orders| && orders[p].rider == rider && orders[p].isCod && !orders[p].cancelled
                     && orders[p].collectedFlag && orders[p].pending > 0
    {
      var request := PrepareRequest(rider, requested);
      SubmissionIff(orders, rider, requested);
      SubmissionMeaning(orders, rider, requested);
      if request.None? {
        return BadRequest;
      }
      requests := requests + [request.value];
      return Ok;
    }

    /** The query of the verification, with the amounts as they were when it ran. */
    method FindOrders(ids: seq<nat>) returns (found: seq<nat>, amounts: seq<nat>)
      ensures found == Found(|orders|, ids, 0)
      ensures |amounts| == |found| && InRange(orders, found)
      ensures forall k :: 0 <= k < |found| ==> amounts[k] == orders[found[k]].pending
    {
      found, amounts := [], [];
      for i := 0 to |orders|
        invariant found + Found(|orders|, ids, i) == Found(|orders|, ids, 0)
        invariant |amounts| == |found| && InRange(orders, found)
        invariant forall k :: 0 <= k < |found| ==> amounts[k] == orders[found[k]].pending
      {
        if i in ids {
          assert found + ([i] + Found(|orders|, ids, i + 1)) == (found + [i]) + Found(|orders|, ids, i + 1);
          found, amounts := found + [i], amounts + [orders[i].pending];
        }
      }
    }

    /** The settling loop, on amounts read before it began. */
    method SettleOrders(found: seq<nat>, amounts: seq<nat>, amount: nat) returns (totalSubmitted: nat)
      requires AllSound(orders) && InRange(orders, found) && Increasing(found) && |amounts| == |found|
      requires forall p :: p in found ==> orders[p].isCod
      requires forall k :: 0 <= k < |found| ==> amounts[k] == orders[found[k]].pending
      modifies this`orders
      ensures orders == Settled(old(orders), found, amount)
      ensures totalSubmitted == Booked(old(orders), found, amount)
    {
      var remaining := amount;
      totalSubmitted := 0;
      ghost var was := orders;
      assert found[0..] == found;
      for i := 0 to |found|
        invariant Settling(was, found, amounts, amount, i, orders, remaining, totalSubmitted)
      {
        SettlingOn(was, found, amounts, amount, i, orders, remaining, totalSubmitted);
        if amounts[i] > 0 && remaining > 0 {
          var settle := Min(amounts[i], remaining);
          var done := ReconcileCodCash(found[i], settle);
          assert done;
          totalSubmitted := totalSubmitted + settle;
          remaining := remaining - settle;
        }
      }
    }

    method VerifyCodPayment(k: nat, outcome: Outcome) returns (answer: Answer)
      requires Inv(View())
      modifies this
      ensures View() == Step(old(View()), Verify(k, outcome))
      ensures answer == if k >= |old(requests)| then NotFound
                        else if old(requests)[k].status != Pending then AlreadyProcessed else Ok
    {
      if k >= |requests| {
        return NotFound;
      }
      var request := requests[k];
      if request.status != Pending {
        return AlreadyProcessed;
      }
      if outcome == Captured {
        var found, amounts := FindOrders(request.orders);
        assert request in requests;
        FoundIsList(|orders|, request.orders);
        var totalSubmitted := SettleOrders(found, amounts, request.amount);
        requests := requests[k := request.(status := Completed, booked := totalSubmitted)];
      } else if outcome == Declined {
        requests := requests[k := request.(status := Failed)];
      }
      return Ok;
    }
  }
}
