/** Refunds over any run of a return, however often it is completed and taken back. */
module ReturnRefunds {
  import opened Common
  import opened Returns

  // ---------------------------------------------------------------- refunds against receipts

  /** How often the order newly enters `returned` along a run. */
  function Receipts(s: State, es: seq<Event>): nat
    decreases |es|
  {
    if es == [] then 0
    else (if Step(s, es[0]).order.status == Returned && s.order.status != Returned then 1 else 0) + Receipts(Step(s, es[0]), es[1..])
  }

  function AtReturned(s: State): nat {
    if s.order.status == Returned then 1 else 0
  }

  /** On every run the customer is refunded at most once per entry into `returned`. */
  lemma {:induction false} RefundsNeedReceipts(s: State, es: seq<Event>)
    ensures |Run(s, es).customerCredits| - |s.customerCredits| + AtReturned(Run(s, es)) <= AtReturned(s) + Receipts(s, es)
    decreases |es|
  {
    if es != [] {
      RefundsNeedReceipts(Step(s, es[0]), es[1..]);
    }
  }

  /** A completion that came to its end is not made again, nor is anything checked that is not
      `returned`. */
  lemma RepeatCompletionIsIdle(s: State, passed: bool, payoutCancelled: bool, again: bool)
    ensures var t := CompleteReturn(s, payoutCancelled); !Repeats(s) ==> CompleteReturn(t, again) == t
    ensures s.order.status == RefundCompleted ==>
              CompleteReturn(s, again) == s && Step(s, QualityCheck(passed, payoutCancelled)) == s
  {
  }

  /** The status update never lowers the rank of one of its three ranked statuses. */
  lemma UpdateNeverLowersRank(s: State, authorised: bool, target: Status)
    ensures var t := Step(s, UpdateStatus(authorised, target));
            Rank(t.order.status) >= Rank(s.order.status) && (t != s ==> Rank(t.order.status) >= 1)
  {
  }

  /** Receipts along a run that is one step longer. */
  lemma {:induction false} ReceiptsOn(s: State, es: seq<Event>, e: Event)
    ensures Receipts(s, es + [e]) == Receipts(s, es) +
              if Step(Run(s, es), e).order.status == Returned && Run(s, es).order.status != Returned then 1 else 0
    decreases |es|
  {
    if es == [] {
      assert [] + [e] == [e] && [e][1..] == [];
    } else {
      ReceiptsOn(Step(s, es[0]), es[1..], e);
      assert (es + [e])[0] == es[0] && (es + [e])[1..] == es[1..] + [e];
    }
  }

  // ---------------------------------------------------------------- refunds against completions

  /** The completions along a run that have a customer and an amount to refund. */
  function PayingCompletions(s: State, es: seq<Event>): nat
    decreases |es|
  {
    if es == [] then 0
    else (if es[0].QualityCheck? && es[0].passed && s.order.status == Returned && s.order.customerKnown && Refund(s.order) > 0
          then 1 else 0) + PayingCompletions(Step(s, es[0]), es[1..])
  }

  /** On every run the refunds are exactly the paying completions. */
  lemma {:induction false} RefundsAreCompletions(s: State, es: seq<Event>)
    ensures |Run(s, es).customerCredits| == |s.customerCredits| + PayingCompletions(s, es)
    decreases |es|
  {
    if es != [] {
      RefundsAreCompletions(Step(s, es[0]), es[1..]);
    }
  }

  /** The return has been approved, or its goods were picked up without that, and pays something. */
  predicate RefundFixed(o: Order) {
    o.customerKnown && Refund(o) > 0 && o.status != NoReturn && o.status != Requested
  }

  lemma StepKeepsRefund(s: State, e: Event)
    requires RefundFixed(s.order)
    ensures RefundFixed(Step(s, e).order) && Refund(Step(s, e).order) == Refund(s.order)
  {
    var t := Step(s, e);
    assert t == if e.QualityCheck? then Checked(s, e.passed, e.payoutCancelled) else Handled(s, e);
    assert t.order.status != NoReturn && t.order.status != Requested;
  }

  /** From the approval on, whoever is assigned, accepts, rejects, hands over or checks, what the
      return pays its customer never changes, and neither does it fall back to a mere request. */
  lemma {:induction false} RunKeepsRefund(s: State, es: seq<Event>)
    requires RefundFixed(s.order)
    ensures RefundFixed(Run(s, es).order) && Refund(Run(s, es).order) == Refund(s.order)
    decreases |es|
  {
    if es != [] {
      StepKeepsRefund(s, es[0]);
      RunKeepsRefund(Step(s, es[0]), es[1..]);
    }
  }

  lemma {:induction false} FixedRefundsPay(s: State, es: seq<Event>)
    requires RefundFixed(s.order)
    ensures PayingCompletions(s, es) == Completions(s, es)
    decreases |es|
  {
    if es != [] {
      StepKeepsRefund(s, es[0]);
      FixedRefundsPay(Step(s, es[0]), es[1..]);
    }
  }

  /** An order with a refund to pay is refunded at most once along a run if and only if the run
      completes it at most once. */
  lemma RefundedOnceIff(s: State, es: seq<Event>)
    requires RefundFixed(s.order) && s.customerCredits == []
    ensures |Run(s, es).customerCredits| <= 1 <==> Completions(s, es) <= 1
  {
    RefundsAreCompletions(s, es);
    FixedRefundsPay(s, es);
  }

  /** The status update goes forward only among its three statuses, and to any of them from everywhere
      else. */
  lemma UpdateAcceptedIff(s: State, authorised: bool, target: Status)
    ensures Step(s, UpdateStatus(authorised, target)) ==
              if && authorised && (target == PickupAssigned || target == InTransit || target == Returned)
                 && (s.order.status == InTransit ==> target != PickupAssigned)
                 && (s.order.status == Returned ==> target == Returned)
              then s.(order := s.order.(status := target)) else s
  {
  }

  lemma WaysBackToReturned(s: State, e: Event)
    requires s.order.status != Returned
    ensures Step(s, e).order.status == Returned <==> Reopens(s, e)
  {
    if !e.QualityCheck? {
      assert Step(s, e) == Handled(s, e);
    }
  }

  /** The customer's record is there exactly when the customer has been credited. */
  predicate RefundRecorded(s: State) {
    s.records.refund <==> s.customerCredits != []
  }

  /** A passed check of a return that has been refunded before credits the customer again and stops
      there: nobody else's money moves, and the order stays at `qc_passed`. */
  lemma SecondCheck(s: State, payoutCancelled: bool)
    requires s.order.status == Returned && RefundsCustomer(s.order) && s.records.refund
    ensures Step(s, QualityCheck(true, payoutCancelled))
         == To(s, QcPassed).(customerCredits := s.customerCredits + [Refund(s.order)])
  {
    assert Refund(To(s, QcPassed).order) == Refund(s.order);
  }

  /** A refunded return is refunded again by the next quality check if and only if it was taken back
      to `returned` before it, and then at the platform's expense alone. */
  lemma ReopenedReturnRefundsAgain(s: State, e: Event, payoutCancelled: bool)
    requires s.order.status == RefundCompleted || s.order.status == QcPassed
    requires RefundsCustomer(s.order) && s.records.refund
    ensures var t := Run(s, [e, QualityCheck(true, payoutCancelled)]);
            && (t.customerCredits == s.customerCredits + [Refund(s.order)] <==> Reopens(s, e))
            && (t.customerCredits == s.customerCredits <==> !Reopens(s, e))
            && (Reopens(s, e) ==> t.order.status == QcPassed && t.sellerDebits == s.sellerDebits && t.riderCredits == s.riderCredits)
  {
    RunTwo(s, e, QualityCheck(true, payoutCancelled));
    WaysBackToReturned(s, e);
    StepKeepsRefund(s, e);
    var t := Step(s, e);
    if !e.QualityCheck? {
      assert t == Handled(s, e) && t.customerCredits == s.customerCredits && t.records == s.records;
    }
    if Reopens(s, e) {
      SecondCheck(t, payoutCancelled);
    }
  }

  /** A seller debit only ever comes with the first refund. */
  predicate SettledOnce(s: State) {
    RefundRecorded(s) && |s.sellerDebits| <= 1 && (s.customerCredits == [] ==> s.sellerDebits == [])
  }

  lemma OneMore(n: nat, r: nat)
    ensures (1 + n) * r == r + n * r
  {
  }

  /**
    Over any run of a return with a refund to pay, however often it is reopened, the customer is
    credited the refund once per completion while the seller is debited at most once: every
    completion beyond the first costs the platform the whole refund.
  */
  lemma {:induction false} EveryReopeningCosts(s: State, es: seq<Event>)
    requires RefundFixed(s.order) && SettledOnce(s)
    ensures Sum(Run(s, es).customerCredits) == Sum(s.customerCredits) + Completions(s, es) * Refund(s.order)
    ensures SettledOnce(Run(s, es))
    decreases |es|
  {
    if es != [] {
      var t := Step(s, es[0]);
      StepKeepsRefund(s, es[0]);
      StepCredits(s, es[0]);
      EveryReopeningCosts(t, es[1..]);
      OneMore(Completions(t, es[1..]), Refund(s.order));
    }
  }

  lemma StepCredits(s: State, e: Event)
    requires RefundFixed(s.order)
    ensures Sum(Step(s, e).customerCredits) ==
              Sum(s.customerCredits) + if e.QualityCheck? && e.passed && s.order.status == Returned then Refund(s.order) else 0
  {
    if e.QualityCheck? {
      SumAppend(s.customerCredits, Refund(s.order));
    } else {
      assert Step(s, e) == Handled(s, e);
    }
  }

  /** Giving an accepted pickup back undoes the acceptance. */
  lemma RejectUndoesAccept(s: State, user: Id)
    requires s.order.status == Approved && s.order.rider.None?
    ensures Run(s, [AcceptPickup(user), RejectPickup(user)]) == s
  {
    RunTwo(s, AcceptPickup(user), RejectPickup(user));
    var t := s.(order := s.order.(rider := Some(user), status := PickupAssigned));
    assert Step(s, AcceptPickup(user)) == t;
    assert Step(t, RejectPickup(user)) == t.(order := t.order.(rider := None, status := Approved));
  }

  // ---------------------------------------------------------------- the amount refunded

  /** What a run from the untouched order keeps: nothing is refunded before a return has begun, and
      from then on every refund is the price of the units returned. */
  predicate PaysForGoods(s: State) {
    && (s.order.status == NoReturn ==> s.customerCredits == [] && s.order.refundAmount == 0)
    && (s.order.refundAmount == 0 || s.order.refundAmount == Total(s.order.items))
    && forall k :: 0 <= k < |s.customerCredits| ==> s.customerCredits[k] == Total(s.order.items)
  }

  lemma StepPaysForGoods(s: State, e: Event)
    requires PaysForGoods(s)
    requires s.order.status == Requested ==> s.customerCredits == []
    ensures PaysForGoods(Step(s, e))
    ensures Step(s, e).order.status == Requested ==> Step(s, e).customerCredits == []
  {
    if e.QualityCheck? {
      assert Refund(s.order) == Total(s.order.items);
    } else {
      assert Step(s, e) == Handled(s, e);
    }
  }

  lemma {:induction false} RunPaysForGoods(s: State, es: seq<Event>)
    requires PaysForGoods(s)
    requires s.order.status == Requested ==> s.customerCredits == []
    ensures PaysForGoods(Run(s, es))
    decreases |es|
  {
    if es != [] {
      StepPaysForGoods(s, es[0]);
      RunPaysForGoods(Step(s, es[0]), es[1..]);
    }
  }

  /** On every run of a return, approved or not, each refund is the price of every single unit
      returned, no more and no less. */
  lemma RefundsAreTheGoods(s0: State, es: seq<Event>)
    requires Untouched(s0) && s0.order.refundAmount == 0
    ensures var t := Run(s0, es);
            forall k :: 0 <= k < |t.customerCredits| ==> t.customerCredits[k] == Sum(Units(t.order.items))
  {
    RunPaysForGoods(s0, es);
    TotalIsUnits(Run(s0, es).order.items);
  }
}
