/**
  The money of one whole return: who is credited and debited from the request to the completion,
  with the background step of the pickup before or after the quality check.
*/
module ReturnMoney {
  import opened Common
  import opened GstReversal
  import opened Returns

  /** With the charge within the subtotal neither `Math.max(0, ...)` ever bites. */
  lemma ClampsNeverBite(o: Order)
    requires o.gstCharged <= o.subtotal
    ensures OrderReversal(o) <= o.gstCharged && OrderReversal(o) <= Refund(o)
    ensures !Held(o) ==> Adjustment(o) == Refund(o) + o.commission - OrderReversal(o)
    ensures ClampedMinus(o.gstCharged, OrderReversal(o)) == o.gstCharged - OrderReversal(o)
  {
    ReversalBounds(o.gstCharged, o.subtotal, Refund(o));
  }

  /**
    What holds before the first completion as long as at most `left` further OTPs are accepted:
    no money has moved except the rider's commission, and that at most once. The commission is
    fixed from the moment a pickup OTP can exist.
  */
  predicate BeforeCompletion(s: State, left: nat) {
    var o := s.order;
    && left <= 1 && Unbooked(s)
    && (s.pickupOtp || left == 0 ==> o.status != NoReturn && o.status != Requested)
    && (left == 1 ==> s.background == [] && s.riderCredits == [] && !o.commissionPaid)
    && (left == 0 ==>
          || (s.background == [] && s.riderCredits == [] && !o.commissionPaid)
          || (|s.background| == 1 && s.riderCredits == [] && !o.commissionPaid
              && !s.background[0].alreadyPaid && s.background[0].commission == o.commission)
          || (s.background == [] && o.commissionPaid == s.flagsDeclared && |s.riderCredits| == 1
              && s.riderCredits[0].amount == o.commission && o.commission > 0))
  }

  lemma BackgroundBeforeCompletion(s: State, left: nat)
    requires BeforeCompletion(s, left)
    ensures BeforeCompletion(OnTheRoad(s, RunBackground), left)
    ensures OnTheRoad(s, RunBackground).flagsDeclared == s.flagsDeclared
  {
  }

  lemma RoadBeforeCompletion(s: State, e: Event, left: nat)
    requires BeforeCompletion(s, left) && !FromDesk(e) && !e.QualityCheck? && !e.RunBackground?
    requires e.VerifyPickupOtp? && e.matches && s.pickupOtp ==> left == 1
    ensures var n := if e.VerifyPickupOtp? && e.matches && s.pickupOtp then 1 else 0;
            BeforeCompletion(OnTheRoad(s, e), left - n) && OnTheRoad(s, e).flagsDeclared == s.flagsDeclared
  {
  }

  lemma StepBeforeCompletion(s: State, e: Event, left: nat)
    requires BeforeCompletion(s, left)
    requires !(e.QualityCheck? && e.passed && s.order.status == Returned)
    requires e.VerifyPickupOtp? && e.matches && s.pickupOtp ==> left == 1
    ensures var n := if e.VerifyPickupOtp? && e.matches && s.pickupOtp then 1 else 0;
            BeforeCompletion(Step(s, e), left - n) && Step(s, e).flagsDeclared == s.flagsDeclared
  {
    if e.QualityCheck? {
      assert Step(s, e) == s || Step(s, e) == To(s, QcFailed);
    } else if e.RunBackground? {
      BackgroundBeforeCompletion(s, left);
    } else if !FromDesk(e) {
      RoadBeforeCompletion(s, e, left);
    }
  }

  lemma {:induction false} RunBeforeCompletion(s: State, es: seq<Event>, left: nat)
    requires BeforeCompletion(s, left) && Completions(s, es) == 0 && Acceptances(s, es) <= left
    ensures BeforeCompletion(Run(s, es), left - Acceptances(s, es))
    ensures Run(s, es).flagsDeclared == s.flagsDeclared
    decreases |es|
  {
    if es != [] {
      StepBeforeCompletion(s, es[0], left);
      var n := if es[0].VerifyPickupOtp? && es[0].matches && s.pickupOtp then 1 else 0;
      RunBeforeCompletion(Step(s, es[0]), es[1..], left - n);
    }
  }

  /** What a passed quality check pays out once the payout is released and both accounts exist. */
  lemma CompletionEffect(s: State, payoutCancelled: bool)
    requires var o := s.order; o.status == Returned && !Held(o) && o.customerKnown && o.sellerKnown && Unbooked(s)
    ensures var o, t := s.order, Step(s, QualityCheck(true, payoutCancelled));
            && t.order.status == RefundCompleted && t.background == s.background && t.flagsDeclared == s.flagsDeclared
            && t.order.gstCharged == ClampedMinus(o.gstCharged, OrderReversal(o))
            && t.customerCredits == s.customerCredits + (if Refund(o) > 0 then [Refund(o)] else [])
            && t.sellerDebits == s.sellerDebits + (if 0 < Adjustment(o) <= s.sellerAvailable then [Adjustment(o)] else [])
            && t.riderCredits == s.riderCredits +
                 (if o.rider.Some? && o.commission > 0 && !o.commissionPaid then [Credit(o.rider.value, o.commission)] else [])
  {
    var o := s.order;
    var q := To(s, QcPassed);
    assert Refund(q.order) == Refund(o) && OrderReversal(q.order) == OrderReversal(o) && Adjustment(q.order) == Adjustment(o);
  }

  lemma SumOfOne(xs: seq<nat>)
    ensures xs == [] ==> Sum(xs) == 0
    ensures |xs| == 1 ==> Sum(xs) == xs[0]
    ensures |xs| == 2 ==> Sum(xs) == xs[0] + xs[1]
  {
    if |xs| == 1 {
      assert xs[1..] == [];
    } else if |xs| == 2 {
      assert xs[1..] == [xs[1]] && xs[1..][1..] == [];
    }
  }

  /**
    A whole return up to its first quality check: from the untouched order `s0` the run `es`, with
    at most one accepted pickup OTP, leads to `s`, the goods are back, the payout is released and
    both accounts exist. The background step may still be pending.
  */
  ghost predicate Settleable(s0: State, es: seq<Event>, s: State) {
    && Untouched(s0) && Completions(s0, es) == 0 && Acceptances(s0, es) <= 1 && s == Run(s0, es)
    && s.order.status == Returned && !Held(s.order) && s.order.customerKnown && s.order.sellerKnown
  }

  /** The check is passed and the background step, if still pending, comes after it. */
  function Completed(s: State, payoutCancelled: bool): State {
    Run(s, [QualityCheck(true, payoutCancelled), RunBackground])
  }

  /** The pickup has paid the rider, or its background step is going to. */
  predicate PickupPays(s: State) {
    s.riderCredits != [] || (s.background != [] && s.background[0].rider.Some? && s.order.commission > 0)
  }

  /** What the background step of `s` is going to pay. */
  function TaskCredits(s: State): seq<Credit> {
    if s.background != [] && s.background[0].rider.Some? && s.background[0].commission > 0 && !s.background[0].alreadyPaid
    then [Credit(s.background[0].rider.value, s.background[0].commission)] else []
  }

  lemma BackgroundCredits(s: State)
    requires |s.background| <= 1
    ensures var t := Handled(s, RunBackground);
            && t.customerCredits == s.customerCredits && t.sellerDebits == s.sellerDebits
            && t.riderCredits == s.riderCredits + TaskCredits(s)
  {
  }

  /** What a check and the background step after it pay out. */
  lemma CompletedEffect(s: State, payoutCancelled: bool)
    requires var o := s.order; o.status == Returned && !Held(o) && o.customerKnown && o.sellerKnown
    requires |s.background| <= 1 && Unbooked(s)
    ensures var o, t := s.order, Completed(s, payoutCancelled);
            && t.customerCredits == (if Refund(o) > 0 then [Refund(o)] else [])
            && t.sellerDebits == (if 0 < Adjustment(o) <= s.sellerAvailable then [Adjustment(o)] else [])
            && t.riderCredits == s.riderCredits
                 + (if CompletionPays(o) then [Credit(o.rider.value, o.commission)] else []) + TaskCredits(s)
  {
    CompletionEffect(s, payoutCancelled);
    RunTwo(s, QualityCheck(true, payoutCancelled), RunBackground);
    BackgroundCredits(Step(s, QualityCheck(true, payoutCancelled)));
  }

  lemma CreditsSum(credits: seq<Credit>, c: nat)
    requires |credits| <= 2 && forall k :: 0 <= k < |credits| ==> credits[k].amount == c
    ensures Sum(Amounts(credits)) == if |credits| == 0 then 0 else if |credits| == 1 then c else c + c
  {
    SumOfOne(Amounts(credits));
  }

  lemma RiderEffect(s: State, payoutCancelled: bool)
    requires var o := s.order; o.status == Returned && !Held(o) && o.customerKnown && o.sellerKnown
    requires |s.background| <= 1 && Unbooked(s)
    ensures Completed(s, payoutCancelled).riderCredits
         == s.riderCredits + (if CompletionPays(s.order) then [Credit(s.order.rider.value, s.order.commission)] else []) + TaskCredits(s)
  {
    CompletedEffect(s, payoutCancelled);
  }

  lemma CreditsAfter(s: State, left: nat, payoutCancelled: bool)
    requires BeforeCompletion(s, left)
    requires var o := s.order; o.status == Returned && !Held(o) && o.customerKnown && o.sellerKnown
    ensures var cs := Completed(s, payoutCancelled).riderCredits;
            && |cs| == (if PickupPays(s) then 1 else 0) + (if CompletionPays(s.order) then 1 else 0)
            && forall k :: 0 <= k < |cs| ==> cs[k].amount == s.order.commission
  {
    RiderEffect(s, payoutCancelled);
  }

  /** The rider is credited once by the pickup if that pays, and once by completion if that pays. */
  lemma RiderCreditsExactly(s0: State, es: seq<Event>, s: State, payoutCancelled: bool)
    requires Settleable(s0, es, s)
    ensures var t, c := Completed(s, payoutCancelled), s.order.commission;
            && |t.riderCredits| == (if PickupPays(s) then 1 else 0) + (if CompletionPays(s.order) then 1 else 0)
            && Sum(Amounts(t.riderCredits)) == (if PickupPays(s) then c else 0) + (if CompletionPays(s.order) then c else 0)
            && t.customerCredits == (if Refund(s.order) > 0 then [Refund(s.order)] else [])
            && t.sellerDebits == (if 0 < Adjustment(s.order) <= s.sellerAvailable then [Adjustment(s.order)] else [])
  {
    RunBeforeCompletion(s0, es, 1);
    CompletedEffect(s, payoutCancelled);
    CreditsAfter(s, 1 - Acceptances(s0, es), payoutCancelled);
    CreditsSum(Completed(s, payoutCancelled).riderCredits, s.order.commission);
  }

  /**
    Over a whole return the rider ends up with exactly the commission and money is conserved, that
    is seller debit + GST reversal = customer credit + rider commission, if and only if the seller's
    balance covers the debit, the reversal stays within what the seller owes, and of pickup and
    completion exactly one pays.
  */
  lemma WholeReturnConservesIff(s0: State, es: seq<Event>, s: State, payoutCancelled: bool)
    requires Settleable(s0, es, s)
    ensures var o, t := s.order, Completed(s, payoutCancelled);
            (&& Sum(Amounts(t.riderCredits)) == o.commission
             && Sum(t.sellerDebits) + OrderReversal(o) == Sum(t.customerCredits) + Sum(Amounts(t.riderCredits)))
            <==>
            (&& Adjustment(o) <= s.sellerAvailable && OrderReversal(o) <= Refund(o) + o.commission
             && (o.commission == 0 || PickupPays(s) != CompletionPays(o)))
  {
    RiderCreditsExactly(s0, es, s, payoutCancelled);
    var t := Completed(s, payoutCancelled);
    SumOfOne(t.customerCredits);
    SumOfOne(t.sellerDebits);
  }

  /** When the debit goes through, the platform is short of exactly one commission if both pay, one
      over if neither does, and even otherwise. */
  lemma WholeReturnBalance(s0: State, es: seq<Event>, s: State, payoutCancelled: bool)
    requires Settleable(s0, es, s)
    ensures var o, t := s.order, Completed(s, payoutCancelled);
            var c: int := o.commission;
            Adjustment(o) <= s.sellerAvailable && OrderReversal(o) <= Refund(o) + o.commission ==>
              Sum(t.customerCredits) + Sum(Amounts(t.riderCredits)) - (Sum(t.sellerDebits) + OrderReversal(o))
              == if PickupPays(s) && CompletionPays(o) then c
                 else if !PickupPays(s) && !CompletionPays(o) then -c
                 else 0
  {
    RiderCreditsExactly(s0, es, s, payoutCancelled);
    var t := Completed(s, payoutCancelled);
    SumOfOne(t.customerCredits);
    SumOfOne(t.sellerDebits);
  }

  /**
    As the code stands the paid flag is never stored, so the guard at completion never fires: the
    rider is credited twice if and only if the pickup pays and somebody is assigned at the end,
    which every return by pickup OTP with a commission and a rider meets. Without an accepted OTP,
    as after an RTO, the rider is credited at most once.
  */
  lemma UnstoredFlagPaysTwiceIff(s0: State, es: seq<Event>, s: State, payoutCancelled: bool)
    requires Settleable(s0, es, s) && !s0.flagsDeclared
    ensures |Completed(s, payoutCancelled).riderCredits| == 2 <==> PickupPays(s) && s.order.rider.Some?
    ensures Acceptances(s0, es) == 0 ==> !PickupPays(s)
  {
    RunBeforeCompletion(s0, es, 1);
    RiderCreditsExactly(s0, es, s, payoutCancelled);
  }

  /**
    The intended variant, with the flag stored: the rider is credited at most once if and only if
    the quality check does not overtake a background step that pays the rider of a pickup who is
    still assigned.
  */
  lemma EarlyCheckPaysTwice(s0: State, es: seq<Event>, s: State, payoutCancelled: bool)
    requires Settleable(s0, es, s) && s0.flagsDeclared
    ensures |Completed(s, payoutCancelled).riderCredits| <= 1 <==>
            !(s.background != [] && s.background[0].rider.Some? && s.order.commission > 0 && s.order.rider.Some?)
  {
    RunBeforeCompletion(s0, es, 1);
    RiderCreditsExactly(s0, es, s, payoutCancelled);
  }

  /**
    The conservation law with the rider credited exactly once: for a commission GST within the
    product subtotal, a balance that covers the debit and a rider to pay it holds after an RTO as
    the code stands, and after a pickup OTP in the intended variant with the flag stored and the
    background step done.
  */
  lemma WholeReturnConserves(s0: State, es: seq<Event>, s: State, payoutCancelled: bool)
    requires Settleable(s0, es, s)
    requires Acceptances(s0, es) == 0 || (s0.flagsDeclared && s.background == [])
    ensures s.order.gstCharged <= s.order.subtotal && Adjustment(s.order) <= s.sellerAvailable && s.order.rider.Some? ==>
              var t := Completed(s, payoutCancelled);
              && Sum(t.sellerDebits) + OrderReversal(s.order) == Sum(t.customerCredits) + Sum(Amounts(t.riderCredits))
              && Sum(Amounts(t.riderCredits)) == s.order.commission
              && |t.riderCredits| == if s.order.commission > 0 then 1 else 0
  {
    RunBeforeCompletion(s0, es, 1);
    RiderCreditsExactly(s0, es, s, payoutCancelled);
    WholeReturnConservesIff(s0, es, s, payoutCancelled);
    if s.order.gstCharged <= s.order.subtotal {
      ClampsNeverBite(s.order);
    }
  }

  // ---------------------------------------------------------------- such returns exist

  /** A return by pickup OTP, from the request to the hand-over at the seller. */
  function PickupReturn(items: seq<Item>, commission: nat, rider: Id): seq<Event> {
    [RequestReturn(items, true), ApproveReturn(true, commission), AcceptPickup(rider)] + PickupLeg(rider)
  }

  function PickupLeg(rider: Id): seq<Event> {
    [RequestPickupOtp, VerifyPickupOtp(true), VerifyDropOtp(rider, true)]
  }

  lemma PickupLegRuns(s: State, rider: Id)
    requires s.order.status == PickupAssigned && s.order.rider == Some(rider)
    ensures var o := s.order;
            Run(s, PickupLeg(rider)) ==
              s.(order := o.(status := Returned), pickupOtp := false,
                 background := s.background + [Task(o.commission, Some(rider), o.commissionPaid)])
    ensures Acceptances(s, PickupLeg(rider)) == 1 && Completions(s, PickupLeg(rider)) == 0
  {
    var s1, s2 := Step(s, RequestPickupOtp), Step(Step(s, RequestPickupOtp), VerifyPickupOtp(true));
    var last, rest := [VerifyDropOtp(rider, true)], [VerifyPickupOtp(true), VerifyDropOtp(rider, true)];
    Unroll(s2, last[0], [], last);
    Unroll(s1, rest[0], last, rest);
    Unroll(s, RequestPickupOtp, rest, PickupLeg(rider));
  }

  lemma PickupOpens(s: State, items: seq<Item>, commission: nat, rider: Id)
    requires s.order.status == NoReturn && s.order.phase == Delivered && items != []
    ensures Step(Step(Step(s, RequestReturn(items, true)), ApproveReturn(true, commission)), AcceptPickup(rider))
         == s.(order := s.order.(status := PickupAssigned, items := items, refundAmount := Total(items),
                                 commission := commission, rider := Some(rider)))
  {
    var s1 := s.(order := s.order.(status := Requested, items := items));
    assert Step(s, RequestReturn(items, true)) == s1;
    var s2 := s1.(order := s1.order.(status := Approved, refundAmount := Total(items), commission := commission, rider := None));
    assert Step(s1, ApproveReturn(true, commission)) == s2;
  }

  lemma UnrollThree(s: State, a: Event, b: Event, c: Event, rest: seq<Event>, all: seq<Event>)
    requires all == [a, b, c] + rest
    requires FromDesk(a) && FromDesk(b) && c.AcceptPickup?
    ensures var t := Step(Step(Step(s, a), b), c);
            && Run(s, all) == Run(t, rest)
            && Acceptances(s, all) == Acceptances(t, rest) && Completions(s, all) == Completions(t, rest)
  {
    var two, three := [c] + rest, [b] + ([c] + rest);
    assert all == [a] + three;
    Unroll(s, a, three, all);
    Unroll(Step(s, a), b, two, three);
    Unroll(Step(Step(s, a), b), c, rest, two);
  }

  /** What the requests, the approval and the leg leave behind. */
  lemma PickupReturnRuns(s: State, items: seq<Item>, commission: nat, rider: Id)
    requires s.order.status == NoReturn && s.order.phase == Delivered && !s.order.commissionPaid && items != []
    ensures var es := PickupReturn(items, commission, rider);
            && Run(s, es) == s.(order := s.order.(status := Returned, items := items, refundAmount := Total(items),
                                                  commission := commission, rider := Some(rider)),
                                pickupOtp := false, background := s.background + [Task(commission, Some(rider), false)])
            && Acceptances(s, es) == 1 && Completions(s, es) == 0
  {
    var request, approve, accept := RequestReturn(items, true), ApproveReturn(true, commission), AcceptPickup(rider);
    var handed := Step(Step(Step(s, request), approve), accept);
    PickupOpens(s, items, commission, rider);
    PickupLegRuns(handed, rider);
    UnrollThree(s, request, approve, accept, PickupLeg(rider), PickupReturn(items, commission, rider));
  }

  /** Every delivered order whose payout is released can go through such a return, and at its end
      the background step is pending and will pay. */
  lemma PickupReturnIsSettleable(s0: State, items: seq<Item>, commission: nat, rider: Id)
    requires Untouched(s0) && s0.order.phase == Delivered && !Held(s0.order)
    requires s0.order.customerKnown && s0.order.sellerKnown && items != []
    ensures var es := PickupReturn(items, commission, rider);
            var s := Run(s0, es);
            && Settleable(s0, es, s) && Acceptances(s0, es) == 1
            && s.background == [Task(commission, Some(rider), false)]
            && s.order.commission == commission && s.order.rider == Some(rider)
            && (PickupPays(s) <==> commission > 0)
  {
    PickupReturnRuns(s0, items, commission, rider);
  }

  /** A known customer who returns `items` by pickup is credited the price of every unit once the
      check is passed: `q` times `p` for `q` units at `p`. */
  lemma PickupReturnRefunds(s0: State, items: seq<Item>, commission: nat, rider: Id, payoutCancelled: bool)
    requires Untouched(s0) && s0.order.phase == Delivered && s0.order.customerKnown && items != []
    ensures var due := Sum(Units(items));
            Run(s0, PickupReturn(items, commission, rider) + [QualityCheck(true, payoutCancelled)]).customerCredits
              == if due > 0 then [due] else []
    ensures forall p: nat, q: nat :: items == [Item(p, q)] ==> Sum(Units(items)) == p * q
  {
    PickupReturnRuns(s0, items, commission, rider);
    RunOn(s0, PickupReturn(items, commission, rider), QualityCheck(true, payoutCancelled));
    TotalIsUnits(items);
    forall p: nat, q: nat | items == [Item(p, q)] ensures Sum(Units(items)) == p * q {
      UnitsOfOne(p, q);
    }
  }

  // ---------------------------------------------------------------- one completion, field by field

  /** What a passed check of a returned order is about to do, read off the order. */
  datatype Dues = Dues(due: nat, held: bool, refunds: bool, settles: bool, pays: bool, reversal: nat, debit: nat)

  function DuesOf(o: Order): Dues {
    var due := if o.refundAmount > 0 then o.refundAmount else Sum(Units(o.items));
    var reversal := Reversal(o.gstCharged, o.subtotal, due);
    Dues(due, o.payoutOnHold || o.payoutHeldFlag,
         o.customerKnown && due > 0,
         o.sellerKnown && (due > 0 || o.commission > 0),
         o.rider.Some? && o.commission > 0 && !o.commissionPaid,
         reversal, if due + o.commission < reversal then 0 else due + o.commission - reversal)
  }

  lemma DuesAre(o: Order)
    ensures var d := DuesOf(o);
            && d.due == Refund(o) && d.held == Held(o) && d.reversal == OrderReversal(o)
            && d.refunds == RefundsCustomer(o) && d.settles == SettlesSeller(o) && d.pays == CompletionPays(o)
            && (!d.held ==> d.debit == Adjustment(o))
  {
    TotalIsUnits(o.items);
  }

  /** What the seller's part of a completion leaves. */
  lemma SellerSettled(s: State, payoutCancelled: bool)
    ensures var o, d, t := s.order, DuesOf(s.order), SettleSeller(s, payoutCancelled);
            && (!d.settles ==> t == s)
            && (d.settles ==> t.records == s.records.(adjustment := true))
            && (d.settles && d.held ==>
                  && t.sellerDebits == s.sellerDebits && t.sellerAvailable == s.sellerAvailable
                  && t.order == if payoutCancelled then o.(payoutOnHold := false, payoutHeldFlag := false) else o)
            && (d.settles && !d.held ==>
                  && t.order == o
                  && t.sellerDebits == s.sellerDebits + (if 0 < d.debit <= s.sellerAvailable then [d.debit] else [])
                  && t.sellerAvailable == s.sellerAvailable - (if d.debit <= s.sellerAvailable then d.debit else 0))
            && GstLeft(o) == if d.settles && !d.held then ClampedMinus(o.gstCharged, d.reversal) else o.gstCharged
  {
    DuesAre(s.order);
  }

  /** From the seller's part on, when no record is repeated. */
  lemma ClosesAfter(s: State, payoutCancelled: bool, d: Dues)
    requires d == DuesOf(s.order) && !(d.settles && s.records.adjustment) && !(d.pays && s.records.earning)
    ensures var o, t := s.order, SettleAndClose(s, payoutCancelled);
            && t.order.status == RefundCompleted
            && t.sellerDebits == s.sellerDebits + (if d.settles && !d.held && 0 < d.debit <= s.sellerAvailable then [d.debit] else [])
            && t.riderCredits == s.riderCredits + (if d.pays then [Credit(o.rider.value, o.commission)] else [])
            && t.records == Records(s.records.refund, s.records.adjustment || d.settles, s.records.earning || d.pays)
            && t.order.gstCharged == (if d.settles && !d.held then ClampedMinus(o.gstCharged, d.reversal) else o.gstCharged)
            && t.order.payoutOnHold == (o.payoutOnHold && !(d.settles && payoutCancelled))
            && t.order.payoutHeldFlag == (o.payoutHeldFlag && !(d.settles && payoutCancelled))
  {
    DuesAre(s.order);
    SellerSettled(s, payoutCancelled);
  }

  /**
    A completion that repeats no record, field by field: the customer is credited what is due, a
    held payout is cancelled and costs nothing, a released one is recovered net of the reversal if
    the balance covers it, the rider is paid unless known to be paid, every record is written, and
    the charge goes down by the reversal only where something was recovered.
  */
  lemma WholeCompletion(s: State, payoutCancelled: bool)
    requires s.order.status == Returned
    requires var d := DuesOf(s.order);
             !(d.refunds && s.records.refund) && !(d.settles && s.records.adjustment) && !(d.pays && s.records.earning)
    ensures var o, d, t := s.order, DuesOf(s.order), Step(s, QualityCheck(true, payoutCancelled));
            && t.order.status == RefundCompleted
            && t.customerCredits == s.customerCredits + (if d.refunds then [d.due] else [])
            && t.sellerDebits == s.sellerDebits + (if d.settles && !d.held && 0 < d.debit <= s.sellerAvailable then [d.debit] else [])
            && t.riderCredits == s.riderCredits + (if d.pays then [Credit(o.rider.value, o.commission)] else [])
            && t.records == Records(s.records.refund || d.refunds, s.records.adjustment || d.settles, s.records.earning || d.pays)
            && t.order.gstCharged == (if d.settles && !d.held then ClampedMinus(o.gstCharged, d.reversal) else o.gstCharged)
            && t.order.payoutOnHold == (o.payoutOnHold && !(d.settles && payoutCancelled))
            && t.order.payoutHeldFlag == (o.payoutHeldFlag && !(d.settles && payoutCancelled))
  {
    var q, d := To(s, QcPassed), DuesOf(s.order);
    var u := CreditCustomer(q);
    CreditedFirst(s, q, u, payoutCancelled);
    ClosesAfter(u, payoutCancelled, d);
  }

  lemma CreditedFirst(s: State, q: State, u: State, payoutCancelled: bool)
    requires s.order.status == Returned && q == To(s, QcPassed) && u == CreditCustomer(q)
    requires !(DuesOf(s.order).refunds && s.records.refund)
    ensures Step(s, QualityCheck(true, payoutCancelled)) == SettleAndClose(u, payoutCancelled)
    ensures var d := DuesOf(s.order);
            && u == q.(customerCredits := s.customerCredits + (if d.refunds then [d.due] else []),
                       records := s.records.(refund := s.records.refund || d.refunds))
            && DuesOf(u.order) == d
  {
    DuesAre(s.order);
    assert DuesOf(q.order) == DuesOf(s.order);
  }

  lemma HeldSettles(s: State, payoutCancelled: bool)
    requires Held(s.order)
    ensures var t := SettleSeller(s, payoutCancelled); t.sellerDebits == s.sellerDebits && t.sellerAvailable == s.sellerAvailable
    ensures SettleSeller(s, payoutCancelled).order.gstCharged == s.order.gstCharged == GstLeft(s.order)
  {
  }

  /** While the payout is held a return costs the seller nothing but the payout. */
  lemma HeldReturn(s: State, payoutCancelled: bool)
    requires s.order.status == Returned && (s.order.payoutOnHold || s.order.payoutHeldFlag)
    ensures var t := Step(s, QualityCheck(true, payoutCancelled));
            && t.sellerDebits == s.sellerDebits && t.sellerAvailable == s.sellerAvailable && t.order.gstCharged == s.order.gstCharged
  {
    var u := CreditCustomer(To(s, QcPassed));
    HeldSettles(u, payoutCancelled);
    assert SettleAndClose(u, payoutCancelled).order.gstCharged == s.order.gstCharged;
  }
}
