/**
  The return handlers on the stored order: each loads the document, checks, assigns fields and
  saves, and completion moves money between the wallets. `history` is every step since the order
  was untouched, so a handler's contract can speak of the whole return.

  Requests, decisions, assignment, acceptance, the quality check with its refund and the status
  update are in backend/app/controller/orderController.js; the OTPs of pickup and drop and the
  background credit in orderWorkflowController.js; the RTO in deliveryController.js.
*/
module ReturnHandlers {
  import opened Common
  import opened GstReversal
  import opened Returns
  import opened ReturnRefunds

  /** What the seller owes is recovered to the last paisa, if the balance covers it, and the GST
      given back is what the charge goes down by. */
  ghost predicate Recovered(before: State, after: State, owed: nat, gst: nat) {
    var reversal := OrderReversal(before.order);
    && gst + reversal == before.order.gstCharged
    && (reversal <= owed <= before.sellerAvailable + reversal ==>
          Sum(after.sellerDebits) + reversal == Sum(before.sellerDebits) + owed)
  }

  lemma SettledIsRecovered(before: State, after: State)
    requires after == SettleSeller(before, false) && before.order.sellerKnown && !Held(before.order)
    requires Refund(before.order) > 0 || before.order.commission > 0
    ensures Recovered(before, after, Refund(before.order) + before.order.commission, GstLeft(before.order))
  {
    var o := before.order;
    ReversalBounds(o.gstCharged, o.subtotal, Refund(o));
    SumAppend(before.sellerDebits, Adjustment(o));
  }

  class ReturnDesk {
    const flagsDeclared: bool
    var order: Order
    var pickupOtp: bool
    var background: seq<Task>
    var records: Records
    var sellerAvailable: nat
    var customerCredits: seq<nat>
    var sellerDebits: seq<nat>
    var riderCredits: seq<Credit>
    ghost const origin: State
    ghost var history: seq<Event>

    ghost function View(): State
      reads this
    {
      State(flagsDeclared, order, pickupOtp, background, records, sellerAvailable, customerCredits, sellerDebits, riderCredits)
    }

    ghost predicate Valid()
      reads this
    {
      Untouched(origin) && View() == Run(origin, history)
    }

    constructor (s: State)
      requires Untouched(s)
      ensures Valid() && View() == s == origin && history == []
    {
      flagsDeclared, order, pickupOtp, background := s.flagsDeclared, s.order, s.pickupOtp, s.background;
      sellerAvailable, customerCredits, sellerDebits := s.sellerAvailable, s.customerCredits, s.sellerDebits;
      records, riderCredits := s.records, s.riderCredits;
      origin, history := s, [];
    }

    /** The `reduce` over the returned items. */
    method ItemTotal(items: seq<Item>) returns (sum: nat)
      ensures sum == Total(items) == Sum(Units(items))
    {
      TotalIsUnits(items);
      sum := 0;
      for i := 0 to |items|
        invariant sum + Total(items[i..]) == Total(items)
      {
        assert items[i..][1..] == items[i + 1..];
        sum := sum + items[i].price * items[i].quantity;
      }
    }

    method CreateReturnRequest(items: seq<Item>, inWindow: bool) returns (accepted: bool)
      requires Valid()
      modifies `order, `history
      ensures Valid() && history == old(history) + [RequestReturn(items, inWindow)]
      ensures accepted <==> items != [] && inWindow && old(order).phase == Delivered && old(order).status == NoReturn
      ensures order == if accepted then old(order).(status := Requested, items := items) else old(order)
    {
      RunOn(origin, history, RequestReturn(items, inWindow));
      history := history + [RequestReturn(items, inWindow)];
      if items == [] || order.phase != Delivered || order.status != NoReturn || !inWindow {
        return false;
      }
      order := order.(status := Requested, items := items);
      return true;
    }

    /** Fixes what the customer is owed, and leaves the pickup to the riders. */
    method Approve(authorised: bool, commission: nat) returns (accepted: bool)
      requires Valid()
      modifies `order, `history
      ensures Valid() && history == old(history) + [ApproveReturn(authorised, commission)]
      ensures accepted <==> authorised && old(order).status == Requested && old(order).items != []
      ensures accepted ==> order.status == Approved && order.rider.None? && Refund(order) == Sum(Units(old(order).items))
                           && order.commission == commission
      ensures !accepted ==> order == old(order)
    {
      ghost var next := AtDesk(View(), ApproveReturn(authorised, commission));
      RunOn(origin, history, ApproveReturn(authorised, commission));
      history := history + [ApproveReturn(authorised, commission)];
      if !authorised || order.status != Requested || order.items == [] {
        assert View() == next;
        return false;
      }
      var total := ItemTotal(order.items);
      order := order.(refundAmount := total, commission := commission);
      order := order.(status := Approved, rider := None);
      assert View() == next;
      return true;
    }

    method Reject(authorised: bool) returns (accepted: bool)
      requires Valid()
      modifies `order, `history
      ensures Valid() && history == old(history) + [RejectReturn(authorised)]
      ensures accepted <==> authorised && old(order).status == Requested
      ensures order == if accepted then old(order).(status := Rejected) else old(order)
    {
      RunOn(origin, history, RejectReturn(authorised));
      history := history + [RejectReturn(authorised)];
      if authorised && order.status == Requested {
        order := order.(status := Rejected);
        return true;
      }
      return false;
    }

    /** A pickup can be handed out, to one rider or to all, until it has been; nothing of what the
        return owes changes. */
    method AssignReturnDelivery(authorised: bool, chosen: Option<Id>, found: bool) returns (accepted: bool)
      requires Valid()
      modifies `order, `history
      ensures Valid() && history == old(history) + [AssignPickup(authorised, chosen, found)]
      ensures accepted <==> authorised && (old(order).status == Requested || old(order).status == Approved) && (chosen.Some? ==> found)
      ensures order == if accepted then old(order).(rider := chosen, status := PickupAssigned) else old(order)
    {
      ghost var next := AtDesk(View(), AssignPickup(authorised, chosen, found));
      RunOn(origin, history, AssignPickup(authorised, chosen, found));
      history := history + [AssignPickup(authorised, chosen, found)];
      accepted := authorised && (order.status == Requested || order.status == Approved);
      if accepted && chosen.Some? {
        accepted := found;
      }
      if accepted {
        order := order.(rider := chosen);
        order := order.(status := PickupAssigned);
      }
      assert View() == next;
    }

    method AcceptReturnPickup(user: Id) returns (refused: bool)
      requires Valid()
      modifies `order, `history
      ensures Valid() && history == old(history) + [AcceptPickup(user)]
      ensures refused <==> old(order).rider.Some? && old(order).rider != Some(user)
      ensures !refused ==> order.rider == Some(user)
      ensures old(order).rider.Some? ==> order == old(order)
    {
      RunOn(origin, history, AcceptPickup(user));
      history := history + [AcceptPickup(user)];
      refused := order.rider.Some? && order.rider != Some(user);
      if !refused && order.rider.None? {
        order := order.(rider := Some(user), status := PickupAssigned);
      }
    }

    /** Only the assigned rider, before the pickup, can give it back; then it is as open as it was
        when it was approved. */
    method RejectReturnPickup(user: Id) returns (accepted: bool)
      requires Valid()
      modifies `order, `history
      ensures Valid() && history == old(history) + [RejectPickup(user)]
      ensures accepted <==> old(order).rider == Some(user) && old(order).status == PickupAssigned
      ensures order == if accepted then old(order).(rider := None, status := Approved) else old(order)
    {
      ghost var next := OnTheRoad(View(), RejectPickup(user));
      RunOn(origin, history, RejectPickup(user));
      history := history + [RejectPickup(user)];
      if order.rider != Some(user) || order.status != PickupAssigned {
        assert View() == next;
        return false;
      }
      order := order.(rider := None);
      order := order.(status := Approved);
      assert View() == next;
      return true;
    }

    method GenerateReturnPickupOtp() returns (accepted: bool)
      requires Valid()
      modifies `pickupOtp, `history
      ensures Valid() && history == old(history) + [RequestPickupOtp]
      ensures accepted <==> order.status == PickupAssigned
      ensures pickupOtp <==> accepted || old(pickupOtp)
    {
      RunOn(origin, history, RequestPickupOtp);
      history := history + [RequestPickupOtp];
      accepted := order.status == PickupAssigned;
      if accepted {
        pickupOtp := true;
      }
    }

    /** Accepts an OTP once and leaves the commission credit to the background: no rider is paid
        yet, and every acceptance of the return so far has its background step. */
    method VerifyReturnPickupOtp(matches: bool) returns (accepted: bool)
      requires Valid()
      modifies `order, `pickupOtp, `background, `history
      ensures Valid() && history == old(history) + [VerifyPickupOtp(matches)]
      ensures accepted <==> matches && old(pickupOtp)
      ensures Acceptances(origin, history) == Acceptances(origin, old(history)) + if accepted then 1 else 0
      ensures accepted ==> !pickupOtp && order == old(order).(status := InTransit)
                           && |background| == |old(background)| + 1
                           && background[|background| - 1] == Task(order.commission, order.rider, order.commissionPaid)
      ensures !accepted ==> order == old(order) && pickupOtp == old(pickupOtp) && background == old(background)
    {
      ghost var next := OnTheRoad(View(), VerifyPickupOtp(matches));
      RunOn(origin, history, VerifyPickupOtp(matches));
      history := history + [VerifyPickupOtp(matches)];
      if !pickupOtp || !matches {
        assert View() == next;
        return false;
      }
      pickupOtp := false;
      order := order.(status := InTransit);
      background := background + [Task(order.commission, order.rider, order.commissionPaid)];
      assert View() == next;
      return true;
    }

    /** The body of the `setImmediate` callback, for the oldest one pending: it pays on what it
        loaded, and its mark is stored only where the schema declares it. */
    method CreditPickupCommission() returns (paid: bool)
      requires Valid()
      modifies `order, `background, `riderCredits, `history
      ensures Valid() && history == old(history) + [RunBackground]
      ensures paid <==> old(background) != [] && old(background)[0].commission > 0
                        && old(background)[0].rider.Some? && !old(background)[0].alreadyPaid
      ensures paid ==> riderCredits == old(riderCredits) + [Credit(old(background)[0].rider.value, old(background)[0].commission)]
      ensures !paid ==> riderCredits == old(riderCredits)
      ensures order == old(order).(commissionPaid := old(order).commissionPaid || (paid && flagsDeclared))
    {
      RunOn(origin, history, RunBackground);
      history := history + [RunBackground];
      if background == [] {
        return false;
      }
      var task := background[0];
      background := background[1..];
      if task.commission > 0 && task.rider.Some? && !task.alreadyPaid {
        riderCredits := riderCredits + [Credit(task.rider.value, task.commission)];
        if flagsDeclared {
          order := order.(commissionPaid := true);
        }
        return true;
      }
      return false;
    }

    /** Asking for a drop OTP again and again keeps the return where it is. */
    method RequestReturnDropOtp(authorised: bool) returns (accepted: bool)
      requires Valid()
      modifies `order, `history
      ensures Valid() && history == old(history) + [RequestDropOtp(authorised)]
      ensures accepted <==> authorised && (old(order).status == InTransit || old(order).status == DropPending)
      ensures accepted ==> order == old(order).(status := DropPending)
      ensures !accepted || old(order).status == DropPending ==> order == old(order)
    {
      RunOn(origin, history, RequestDropOtp(authorised));
      history := history + [RequestDropOtp(authorised)];
      accepted := authorised && (order.status == InTransit || order.status == DropPending);
      if accepted {
        order := order.(status := DropPending);
      }
    }

    /** Only the assigned rider with a valid OTP hands the goods over; the status the return had
        does not matter, so this counts as a receipt whenever it was not `returned` yet. */
    method VerifyReturnDropOtp(user: Id, valid: bool) returns (accepted: bool)
      requires Valid()
      modifies `order, `history
      ensures Valid() && history == old(history) + [VerifyDropOtp(user, valid)]
      ensures accepted <==> old(order).rider == Some(user) && valid
      ensures order == if accepted then old(order).(status := Returned) else old(order)
      ensures Receipts(origin, history) == Receipts(origin, old(history)) + if accepted && old(order).status != Returned then 1 else 0
    {
      RunOn(origin, history, VerifyDropOtp(user, valid));
      ReceiptsOn(origin, history, VerifyDropOtp(user, valid));
      history := history + [VerifyDropOtp(user, valid)];
      accepted := order.rider == Some(user) && valid;
      if accepted {
        order := order.(status := Returned);
      }
    }

    method UpdateReturnStatus(authorised: bool, target: Status) returns (accepted: bool)
      requires Valid()
      modifies `order, `history
      ensures Valid() && history == old(history) + [UpdateStatus(authorised, target)]
      ensures accepted <==>
                && authorised && (target == PickupAssigned || target == InTransit || target == Returned)
                && (old(order).status == InTransit ==> target != PickupAssigned)
                && (old(order).status == Returned ==> target == Returned)
      ensures order == if accepted then old(order).(status := target) else old(order)
    {
      RunOn(origin, history, UpdateStatus(authorised, target));
      history := history + [UpdateStatus(authorised, target)];
      accepted := authorised && (target == PickupAssigned || target == InTransit || target == Returned)
                  && Rank(target) >= Rank(order.status);
      if accepted {
        order := order.(status := target);
      }
    }

    /** Only returned goods are checked, and a passed check comes to its end unless completion
        repeats a record. After every check the refunds of the whole return are its paying
        completions, and no more than its receipts. */
    method UpdateReturnQcStatus(passed: bool, payoutCancelled: bool) returns (accepted: bool)
      requires Valid()
      modifies this
      ensures Valid() && history == old(history) + [QualityCheck(passed, payoutCancelled)]
      ensures accepted <==> old(order).status == Returned
      ensures !accepted ==> order == old(order)
      ensures accepted ==> order.status == if !passed then QcFailed else if Repeats(old(View())) then QcPassed else RefundCompleted
      ensures Completions(origin, history) == Completions(origin, old(history)) + if accepted && passed then 1 else 0
      ensures |customerCredits| == PayingCompletions(origin, history)
      ensures |customerCredits| + AtReturned(View()) <= Receipts(origin, history)
    {
      RunOn(origin, history, QualityCheck(passed, payoutCancelled));
      history := history + [QualityCheck(passed, payoutCancelled)];
      RefundsAreCompletions(origin, history);
      RefundsNeedReceipts(origin, history);
      accepted := order.status == Returned;
      if accepted {
        Check(passed, payoutCancelled);
      }
    }

    method Check(passed: bool, payoutCancelled: bool)
      requires order.status == Returned
      modifies `order, `records, `sellerAvailable, `customerCredits, `sellerDebits, `riderCredits
      ensures View() == CheckedNow(old(View()), passed, payoutCancelled)
    {
      order := order.(status := if passed then QcPassed else QcFailed);
      if passed {
        CompleteReturnAndRefund(payoutCancelled);
      }
    }

    /** Returns where the source throws: right after the record it cannot write twice. */
    method CompleteReturnAndRefund(payoutCancelled: bool)
      modifies `order, `records, `sellerAvailable, `customerCredits, `sellerDebits, `riderCredits
      ensures View() == CompleteReturn(old(View()), payoutCancelled)
      ensures order.status == if old(order).status != QcPassed || Repeats(old(View())) then old(order).status else RefundCompleted
      ensures old(order).status == QcPassed ==>
                var due := if order.refundAmount > 0 then order.refundAmount else Sum(Units(order.items));
                customerCredits == old(customerCredits) + if order.customerKnown && due > 0 then [due] else []
    {
      TotalIsUnits(order.items);
      if order.status != QcPassed {
        return;
      }
      var refund := order.refundAmount;
      if refund == 0 {
        refund := ItemTotal(order.items);
      }
      var written := CreditAccount(refund);
      if !written {
        return;
      }
      FinishReturn(refund, payoutCancelled);
    }

    /** The seller's and the rider's part. */
    method FinishReturn(refund: nat, payoutCancelled: bool)
      requires refund == Refund(order)
      modifies `order, `records, `sellerAvailable, `sellerDebits, `riderCredits
      ensures View() == SettleAndClose(old(View()), payoutCancelled)
    {
      var written, gst := AdjustSeller(refund, payoutCancelled);
      if !written {
        return;
      }
      written := PayRider();
      if written {
        order := order.(status := RefundCompleted, gstCharged := gst);
      }
    }

    /** `written` is false when the record existed; the wallet is credited all the same. */
    method CreditAccount(refund: nat) returns (written: bool)
      requires refund == Refund(order)
      modifies `customerCredits, `records
      ensures View() == CreditCustomer(old(View()))
      ensures written <==> !(order.customerKnown && refund > 0 && old(records).refund)
      ensures Sum(customerCredits) == Sum(old(customerCredits)) + if order.customerKnown then refund else 0
    {
      written := true;
      if order.customerKnown && refund > 0 {
        SumAppend(customerCredits, refund);
        customerCredits := customerCredits + [refund];
        written := !records.refund;
        records := records.(refund := true);
      }
    }

    /** Cancels a held payout, or recovers a released one net of the commission GST given back. No
        money is lost on the way: what leaves the seller's balance is what is debited, a debit that
        goes through recovers the refund and the commission to the last paisa, and the GST given
        back is what the charge, kept in `gst` until the order is saved, goes down by. */
    method AdjustSeller(refund: nat, payoutCancelled: bool) returns (written: bool, gst: nat)
      requires refund == Refund(order)
      modifies `order, `records, `sellerAvailable, `sellerDebits
      ensures View() == SettleSeller(old(View()), payoutCancelled) && gst == GstLeft(old(order))
      ensures written <==> !(SettlesSeller(old(order)) && old(records).adjustment)
      ensures sellerAvailable + Sum(sellerDebits) == old(sellerAvailable) + Sum(old(sellerDebits))
      ensures old(order).payoutOnHold || old(order).payoutHeldFlag ==>
                && sellerDebits == old(sellerDebits) && sellerAvailable == old(sellerAvailable) && gst == old(order).gstCharged
                && (payoutCancelled && old(order).sellerKnown && (refund > 0 || old(order).commission > 0) ==>
                      !order.payoutOnHold && !order.payoutHeldFlag)
      ensures !(payoutCancelled && (old(order).payoutOnHold || old(order).payoutHeldFlag)) ==> order == old(order)
      ensures !old(order).sellerKnown || (refund == 0 && old(order).commission == 0) ==> View() == old(View()) && written
      ensures SettlesSeller(old(order)) && !Held(old(order)) ==> Recovered(old(View()), View(), refund + order.commission, gst)
    {
      ghost var before := View();
      var commission := order.commission;
      gst, written := order.gstCharged, true;
      if !order.sellerKnown || (refund == 0 && commission == 0) {
        return;
      }
      if Held(order) {
        if payoutCancelled {
          order := order.(payoutOnHold := false, payoutHeldFlag := false);
        }
      } else {
        gst := RecoverReleased(refund);
      }
      written := !records.adjustment;
      records := records.(adjustment := true);
      if !Held(before.order) {
        SettledIsRecovered(before, View());
      }
    }

    method RecoverReleased(refund: nat) returns (gst: nat)
      requires refund == Refund(order) && SettlesSeller(order) && !Held(order)
      modifies `sellerAvailable, `sellerDebits
      ensures gst == GstLeft(order)
      ensures View().(records := records.(adjustment := true)) == SettleSeller(old(View()), false)
      ensures sellerAvailable + Sum(sellerDebits) == old(sellerAvailable) + Sum(old(sellerDebits))
    {
      var reversal := Reversal(order.gstCharged, order.subtotal, refund);
      DebitSeller(ClampedMinus(refund + order.commission, reversal));
      gst := if reversal > 0 then ClampedMinus(order.gstCharged, reversal) else order.gstCharged;
    }

    /** `debitWallet` on the available balance; a debit it cannot cover is only logged. */
    method DebitSeller(amount: nat)
      modifies `sellerAvailable, `sellerDebits
      ensures sellerAvailable + Sum(sellerDebits) == old(sellerAvailable) + Sum(old(sellerDebits))
      ensures sellerDebits == old(sellerDebits) + if 0 < amount <= old(sellerAvailable) then [amount] else []
      ensures Sum(sellerDebits) == Sum(old(sellerDebits)) + if amount <= old(sellerAvailable) then amount else 0
    {
      if 0 < amount <= sellerAvailable {
        SumAppend(sellerDebits, amount);
        sellerAvailable := sellerAvailable - amount;
        sellerDebits := sellerDebits + [amount];
      }
    }

    /** The guard against paying the pickup commission a second time. */
    method PayRider() returns (written: bool)
      modifies `riderCredits, `records
      ensures View() == PayEarning(old(View()))
      ensures written <==> !(CompletionPays(order) && old(records).earning)
    {
      written := true;
      if order.rider.Some? && order.commission > 0 && !order.commissionPaid {
        riderCredits := riderCredits + [Credit(order.rider.value, order.commission)];
        written := !records.earning;
        records := records.(earning := true);
      }
    }

    method MarkOrderRto(user: Id) returns (ok: bool)
      requires Valid()
      modifies `order, `history
      ensures Valid() && history == old(history) + [MarkRto(user)]
      ensures ok <==> old(order).deliveryBoy == Some(user) && old(order).phase == OutForDelivery
      ensures ok ==> order.phase == Rto && order.status == InTransit && order.rider == Some(user)
      ensures !ok ==> order == old(order)
    {
      RunOn(origin, history, MarkRto(user));
      history := history + [MarkRto(user)];
      ok := order.deliveryBoy == Some(user) && order.phase == OutForDelivery;
      if ok {
        order := order.(phase := Rto, status := InTransit, rider := Some(user));
        order := order.(payoutOnHold := false);
      }
    }
  }
}
