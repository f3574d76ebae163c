/**
  The payment-timeout part of the auto-cancel job, run on the stored orders
  (backend/app/jobs/orderAutoCancelJob.js, lines 115-163).

  The job lists what is due, and for each row tries a guarded update, loads the order again if
  the update went through, puts the reserved stock back and saves the order. Nobody else writes
  to the orders during a run here; payments, acceptances and deliveries that come in between are a
  matter of `PaymentTimeout`.
*/
module TimeoutHandlers {
  import opened PaymentTimeout

  /** After `k` rows of the job's list: those are cancelled and compensated, the others as before. */
  ghost predicate Swept(before: seq<Order>, after: seq<Order>, rows: seq<nat>, k: nat) {
    && |after| == |before| && k <= |rows|
    && (forall j :: 0 <= j < k ==> rows[j] < |before| && after[rows[j]] == Compensated(TimedOut(before[rows[j]]), false))
    && (forall i: nat :: i < |before| && i !in rows[..k] ==> after[i] == before[i])
  }

  lemma SweptOn(before: seq<Order>, after: seq<Order>, rows: seq<nat>, k: nat, now: nat)
    requires Swept(before, after, rows, k) && k < |rows|
    requires forall j, l :: 0 <= j < l < |rows| ==> rows[j] != rows[l]
    requires forall p: nat :: p in rows ==> p < |before| && Due(before[p], now)
    ensures rows[k] < |before| && Cancellable(after[rows[k]]) && !after[rows[k]].released
    ensures Swept(before, after[rows[k] := Compensated(TimedOut(after[rows[k]]), false)], rows, k + 1)
  {
    assert rows[k] in rows && rows[k] !in rows[..k];
    assert rows[..k + 1] == rows[..k] + [rows[k]];
  }

  lemma SweptAll(before: seq<Order>, after: seq<Order>, rows: seq<nat>, now: nat)
    requires Swept(before, after, rows, |rows|)
    requires forall p: nat :: p in rows <==> p < |before| && Due(before[p], now)
    ensures forall i :: 0 <= i < |after| ==>
              after[i] == if Due(before[i], now) then Compensated(TimedOut(before[i]), false) else before[i]
  {
    assert rows[..|rows|] == rows;
    forall i: nat | i < |after|
      ensures after[i] == if Due(before[i], now) then Compensated(TimedOut(before[i]), false) else before[i]
    {
      if Due(before[i], now) {
        var j :| 0 <= j < |rows| && rows[j] == i;
      }
    }
  }

  class OrderStore {
    var orders: seq<Order>

    constructor (initial: seq<Order>)
      ensures orders == initial
    {
      orders := initial;
    }

    method FindPaymentExpired(now: nat) returns (ids: seq<nat>)
      ensures ids == DueFrom(orders, now, 0)
    {
      ids := [];
      for i := 0 to |orders|
        invariant ids + DueFrom(orders, now, i) == DueFrom(orders, now, 0)
      {
        if Due(orders[i], now) {
          assert ids + ([i] + DueFrom(orders, now, i + 1)) == (ids + [i]) + DueFrom(orders, now, i + 1);
          ids := ids + [i];
        }
      }
    }

    /** The guarded `findOneAndUpdate`. */
    method CancelIfUnpaid(i: nat) returns (updated: bool)
      requires i < |orders|
      modifies this
      ensures updated <==> Cancellable(old(orders)[i])
      ensures orders == if updated then old(orders)[i := TimedOut(old(orders)[i])] else old(orders)
    {
      var o := orders[i];
      if o.workflow != Created || o.payment == Paid {
        return false;
      }
      orders := orders[i := o.(workflow := Cancelled, timeouts := o.timeouts + 1)];
      return true;
    }

    method CompensateOrderCancellation(i: nat)
      requires i < |orders|
      modifies this
      ensures orders == old(orders)[i := Compensated(old(orders)[i], old(orders)[i].released)]
    {
      var existing := orders[i];
      if !existing.released {
        existing := existing.(restocks := existing.restocks + 1, released := true);
      }
      orders := orders[i := existing.(compensations := existing.compensations + 1)];
    }

    /** One round of the job's loop. */
    method CancelRow(i: nat)
      requires i < |orders|
      modifies this
      ensures orders == if Cancellable(old(orders)[i])
                        then old(orders)[i := Compensated(TimedOut(old(orders)[i]), old(orders)[i].released)] else old(orders)
    {
      var updated := CancelIfUnpaid(i);
      if updated {
        CompensateOrderCancellation(i);
      }
    }

    /** The loop of the job when nothing interrupts it. */
    method CancelRows(now: nat)
      modifies this
      ensures |orders| == |old(orders)|
      ensures forall i :: 0 <= i < |orders| ==>
                orders[i] == if Due(old(orders)[i], now) then Compensated(TimedOut(old(orders)[i]), false) else old(orders)[i]
    {
      var rows := FindPaymentExpired(now);
      DueFromMeaning(orders, now, 0);
      for k := 0 to |rows|
        invariant Swept(old(orders), orders, rows, k)
      {
        SweptOn(old(orders), orders, rows, k, now);
        CancelRow(rows[k]);
      }
      SweptAll(old(orders), orders, rows, now);
    }

    /** A run of the job cancels and compensates exactly the online orders that are still created,
        neither paid nor released, and past their expiry, each once; every other order stays as it
        was. */
    method CancelPaymentExpired(now: nat)
      modifies this
      ensures |orders| == |old(orders)|
      ensures forall i :: 0 <= i < |orders| ==>
                var o := old(orders)[i];
                if o.workflow == Created && o.online && o.payment != Paid && !o.released && o.expiresAt <= now
                then orders[i] == o.(workflow := Cancelled, released := true, timeouts := o.timeouts + 1,
                                     compensations := o.compensations + 1, restocks := o.restocks + 1)
                else orders[i] == o
    {
      CancelRows(now);
    }
  }
}
