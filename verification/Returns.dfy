/**
  The return of a delivered or rejected order: pickup, drop, quality check and refund
  (backend/app/controller/orderController.js, orderWorkflowController.js, deliveryController.js
  and backend/app/services/order/orderReturnService.js). Money is counted in paise.

  Every handler is a function from the stored state to the next one. The commission credit that
  `verifyReturnPickupOtp` schedules with `setImmediate` is a separate step that works on the
  document as it was loaded when the OTP was accepted.

  The order schema (backend/app/models/order.js, lines 298-305) declares neither
  `financeFlags.returnPickupCommissionPaid` nor `financeFlags.sellerPayoutHeld`, and Mongoose
  drops writes to undeclared paths. `flagsDeclared` says whether they are stored: false is the
  code as it stands, true is what its guard against double payment intends.

  Transaction records have unique references (backend/app/models/transaction.js, lines 33-37), and
  those of a return are made from the order's own id: writing one a second time throws, after the
  wallet has been changed. The second record of a pickup credit is not modelled: its error is only
  logged, and by then the mark is already set where it is stored.
*/
module Returns {
  import opened Common
  import opened GstReversal

  type Id = int

  datatype Status =
    | NoReturn | Requested | Approved | Rejected | PickupAssigned | InTransit
    | DropPending | Returned | QcPassed | QcFailed | RefundCompleted

  datatype Phase = OutForDelivery | Delivered | Rto | OtherPhase

  datatype Item = Item(price: nat, quantity: nat)

  datatype Order = Order(
    phase: Phase,
    status: Status,                  // returnStatus
    items: seq<Item>,                // returnItems
    refundAmount: nat,               // returnRefundAmount, 0 when never set
    commission: nat,                 // returnDeliveryCommission
    rider: Option<Id>,               // returnDeliveryBoy
    deliveryBoy: Option<Id>,
    commissionPaid: bool,            // financeFlags.returnPickupCommissionPaid, as read back
    payoutOnHold: bool,              // settlementStatus.sellerPayout is HOLD
    payoutHeldFlag: bool,            // financeFlags.sellerPayoutHeld, as read back
    gstCharged: nat,                 // paymentBreakdown.commissionGstAmount
    subtotal: nat,                   // paymentBreakdown.productSubtotal
    customerKnown: bool,
    sellerKnown: bool)

  datatype Credit = Credit(rider: Id, amount: nat)

  /** The transaction records of completion that exist already. */
  datatype Records = Records(refund: bool, adjustment: bool, earning: bool)

  /** The part of the loaded document the background step looks at. */
  datatype Task = Task(commission: nat, rider: Option<Id>, alreadyPaid: bool)

  datatype State = State(
    flagsDeclared: bool,             // the schema stores the two finance flags
    order: Order,
    pickupOtp: bool,                 // an unconsumed pickup OTP exists
    background: seq<Task>,
    records: Records,
    sellerAvailable: nat,
    customerCredits: seq<nat>,
    sellerDebits: seq<nat>,
    riderCredits: seq<Credit>)

  datatype Event =
    | RequestReturn(items: seq<Item>, inWindow: bool)
    | ApproveReturn(authorised: bool, commission: nat)
    | RejectReturn(authorised: bool)
    | AssignPickup(authorised: bool, chosen: Option<Id>, found: bool)
    | AcceptPickup(user: Id)
    | RejectPickup(user: Id)
    | RequestPickupOtp
    | VerifyPickupOtp(matches: bool)
    | RunBackground
    | RequestDropOtp(authorised: bool)
    | VerifyDropOtp(user: Id, valid: bool)
    | UpdateStatus(authorised: bool, target: Status)
    | QualityCheck(passed: bool, payoutCancelled: bool)
    | MarkRto(user: Id)
    | ReleasePayout
    | SellerBalance(amount: nat)

  // ---------------------------------------------------------------- money

  function Total(items: seq<Item>): nat {
    if items == [] then 0 else items[0].price * items[0].quantity + Total(items[1..])
  }

  function Refund(o: Order): nat {
    if o.refundAmount != 0 then o.refundAmount else Total(o.items)
  }

  function OrderReversal(o: Order): nat {
    Reversal(o.gstCharged, o.subtotal, Refund(o))
  }

  predicate Held(o: Order) {
    o.payoutOnHold || o.payoutHeldFlag
  }

  function Adjustment(o: Order): nat {
    if Held(o) then Refund(o) + o.commission else ClampedMinus(Refund(o) + o.commission, OrderReversal(o))
  }

  // ---------------------------------------------------------------- completion

  predicate RefundsCustomer(o: Order) {
    o.customerKnown && Refund(o) > 0
  }

  predicate SettlesSeller(o: Order) {
    o.sellerKnown && (Refund(o) > 0 || o.commission > 0)
  }

  /** Completion finds a rider with a commission it does not know to be paid. */
  predicate CompletionPays(o: Order) {
    o.rider.Some? && o.commission > 0 && !o.commissionPaid
  }

  /** What an order owes its customer, and to whom its commission goes: only the status and the
      seller's side of it may differ. */
  predicate SameTerms(o: Order, t: Order) {
    t == o.(status := t.status, payoutOnHold := t.payoutOnHold, payoutHeldFlag := t.payoutHeldFlag, gstCharged := t.gstCharged)
  }

  function CreditCustomer(s: State): State {
    if RefundsCustomer(s.order)
    then s.(customerCredits := s.customerCredits + [Refund(s.order)], records := s.records.(refund := true)) else s
  }

  /** A held payout is cancelled, a released one is recovered from the seller's available balance;
      a debit the balance cannot cover is only logged. */
  function SettleSeller(s: State, payoutCancelled: bool): (t: State)
    ensures SameTerms(s.order, t.order) && t.order.status == s.order.status
    ensures t == s.(order := t.order, sellerAvailable := t.sellerAvailable, sellerDebits := t.sellerDebits,
                    records := s.records.(adjustment := t.records.adjustment))
    ensures |t.sellerDebits| <= |s.sellerDebits| + 1
  {
    var o := s.order;
    var t := s.(records := s.records.(adjustment := true));
    if !SettlesSeller(o) then s
    else if Held(o) then
      if payoutCancelled then t.(order := o.(payoutOnHold := false, payoutHeldFlag := false)) else t
    else
      var a := Adjustment(o);
      if a > 0 && a <= s.sellerAvailable
      then t.(sellerAvailable := s.sellerAvailable - a, sellerDebits := s.sellerDebits + [a]) else t
  }

  function CreditRider(s: State, rider: Option<Id>, commission: nat, alreadyPaid: bool): State {
    if rider.Some? && commission > 0 && !alreadyPaid
    then s.(riderCredits := s.riderCredits + [Credit(rider.value, commission)]) else s
  }

  function PayEarning(s: State): (t: State)
    ensures t == s.(riderCredits := t.riderCredits, records := s.records.(earning := t.records.earning))
  {
    var t := CreditRider(s, s.order.rider, s.order.commission, s.order.commissionPaid);
    if CompletionPays(s.order) then t.(records := t.records.(earning := true)) else t
  }

  /** The charge after a released payout has been recovered. */
  function GstLeft(o: Order): nat {
    if SettlesSeller(o) && !Held(o) && OrderReversal(o) > 0 then ClampedMinus(o.gstCharged, OrderReversal(o)) else o.gstCharged
  }

  /** Completion is going to write a record that exists. */
  predicate Repeats(s: State) {
    || (RefundsCustomer(s.order) && s.records.refund)
    || (SettlesSeller(s.order) && s.records.adjustment)
    || (CompletionPays(s.order) && s.records.earning)
  }

  /** The rider's part of completion and its end, where the order is saved. */
  function PayAndClose(s: State, gst: nat): (t: State)
    ensures t == s.(order := t.order, riderCredits := t.riderCredits, records := s.records.(earning := t.records.earning))
    ensures SameTerms(s.order, t.order)
    ensures t.order.status == if CompletionPays(s.order) && s.records.earning then s.order.status else RefundCompleted
  {
    var t := PayEarning(s);
    if CompletionPays(s.order) && s.records.earning then t
    else t.(order := t.order.(status := RefundCompleted, gstCharged := gst))
  }

  /** From the seller's part on. */
  function SettleAndClose(s: State, payoutCancelled: bool): (t: State)
    ensures t == s.(order := t.order, sellerAvailable := t.sellerAvailable, sellerDebits := t.sellerDebits,
                    riderCredits := t.riderCredits, records := t.records.(refund := s.records.refund))
    ensures SameTerms(s.order, t.order) && |t.sellerDebits| <= |s.sellerDebits| + 1
    ensures t.order.status ==
              if (SettlesSeller(s.order) && s.records.adjustment) || (CompletionPays(s.order) && s.records.earning)
              then s.order.status else RefundCompleted
  {
    var t := SettleSeller(s, payoutCancelled);
    if SettlesSeller(s.order) && s.records.adjustment then t else PayAndClose(t, GstLeft(s.order))
  }

  /** `completeReturnAndRefund`. Each wallet is changed before its record is written, and a record
      that exists ends it there, with the order left as it was saved last. */
  function CompleteReturn(s: State, payoutCancelled: bool): (t: State)
    ensures SameTerms(s.order, t.order) && |t.sellerDebits| <= |s.sellerDebits| + 1
    ensures t.order.status == if s.order.status != QcPassed || Repeats(s) then s.order.status else RefundCompleted
    ensures t.customerCredits ==
              s.customerCredits + if s.order.status == QcPassed && RefundsCustomer(s.order) then [Refund(s.order)] else []
    ensures t.records.refund <==> s.records.refund || (s.order.status == QcPassed && RefundsCustomer(s.order))
    ensures RefundsCustomer(s.order) && s.records.refund ==> t.sellerDebits == s.sellerDebits && t.riderCredits == s.riderCredits
  {
    if s.order.status != QcPassed then s
    else
      var t := CreditCustomer(s);
      if RefundsCustomer(s.order) && s.records.refund then t else SettleAndClose(t, payoutCancelled)
  }

  // ---------------------------------------------------------------- handlers

  function Rank(st: Status): nat {
    match st
    case PickupAssigned => 1
    case InTransit => 2
    case Returned => 3
    case _ => 0
  }

  function To(s: State, st: Status): (t: State)
    ensures Refund(t.order) == Refund(s.order) && SameTerms(s.order, t.order)
  {
    s.(order := s.order.(status := st))
  }

  /** What no step takes back once the return is under way. */
  predicate GoesOn(o: Order, t: Order) {
    && t.items == o.items && t.refundAmount == o.refundAmount && t.customerKnown == o.customerKnown
    && t.status != NoReturn && t.status != Requested
  }

  /** The two steps that take a return to `returned`, a completed one too: the status update, for
      which all other statuses rank 0, and a drop OTP, which is checked against no status. */
  predicate Reopens(s: State, e: Event) {
    || (e.UpdateStatus? && e.authorised && e.target == Returned)
    || (e.VerifyDropOtp? && e.valid && s.order.rider == Some(e.user))
  }

  /** The steps of the customer, the seller and the administration, and what they are told. */
  predicate FromDesk(e: Event) {
    || e.RequestReturn? || e.ApproveReturn? || e.RejectReturn? || e.AssignPickup? || e.UpdateStatus?
    || e.ReleasePayout? || e.SellerBalance?
  }

  /** No money of the customer or the seller moves. */
  function AtDesk(s: State, e: Event): (t: State)
    requires FromDesk(e)
    ensures t == s.(order := t.order, sellerAvailable := t.sellerAvailable)
    ensures t.order.commissionPaid == s.order.commissionPaid
    ensures s.order.status != NoReturn && s.order.status != Requested ==> t.order.commission == s.order.commission
    ensures s.order.status != NoReturn && s.order.status != Requested ==> GoesOn(s.order, t.order)
    ensures s.order.status != Returned ==> (t.order.status == Returned <==> Reopens(s, e))
  {
    var o := s.order;
    match e
    case RequestReturn(items, inWindow) =>
      if items != [] && inWindow && o.phase == Delivered && o.status == NoReturn
      then s.(order := o.(status := Requested, items := items)) else s
    case ApproveReturn(authorised, commission) =>
      if authorised && o.status == Requested && o.items != []
      then s.(order := o.(status := Approved, refundAmount := Total(o.items), commission := commission, rider := None)) else s
    case RejectReturn(authorised) =>
      if authorised && o.status == Requested then To(s, Rejected) else s
    case AssignPickup(authorised, chosen, found) =>
      if authorised && (o.status == Requested || o.status == Approved) && (chosen.Some? ==> found)
      then s.(order := o.(rider := chosen, status := PickupAssigned)) else s
    case UpdateStatus(authorised, target) =>
      if authorised && target in {PickupAssigned, InTransit, Returned} && Rank(target) >= Rank(o.status)
      then To(s, target) else s
    case ReleasePayout => s.(order := o.(payoutOnHold := false, payoutHeldFlag := false))
    case SellerBalance(amount) => s.(sellerAvailable := amount)
  }

  /** The steps of the rider: no money of the customer or the seller moves here either. */
  function OnTheRoad(s: State, e: Event): (t: State)
    requires !FromDesk(e) && !e.QualityCheck?
    ensures t == s.(order := t.order, pickupOtp := t.pickupOtp, background := t.background, riderCredits := t.riderCredits)
    ensures s.order.status != NoReturn && s.order.status != Requested ==> GoesOn(s.order, t.order)
    ensures s.order.status != Returned ==> (t.order.status == Returned <==> Reopens(s, e))
  {
    var o := s.order;
    match e
    case AcceptPickup(user) =>
      if o.rider.None? then s.(order := o.(rider := Some(user), status := PickupAssigned)) else s
    case RejectPickup(user) =>
      if o.rider == Some(user) && o.status == PickupAssigned
      then s.(order := o.(rider := None, status := Approved)) else s
    case RequestPickupOtp =>
      if o.status == PickupAssigned then s.(pickupOtp := true) else s
    case VerifyPickupOtp(matches) =>
      if matches && s.pickupOtp
      then To(s, InTransit).(pickupOtp := false, background := s.background + [Task(o.commission, o.rider, o.commissionPaid)])
      else s
    case RunBackground =>
      if s.background == [] then s
      else
        var task := s.background[0];
        var t := CreditRider(s.(background := s.background[1..]), task.rider, task.commission, task.alreadyPaid);
        if s.flagsDeclared && task.rider.Some? && task.commission > 0 && !task.alreadyPaid
        then t.(order := o.(commissionPaid := true)) else t
    case RequestDropOtp(authorised) =>
      if authorised && (o.status == InTransit || o.status == DropPending) then To(s, DropPending) else s
    case VerifyDropOtp(user, valid) =>
      if o.rider == Some(user) && valid then To(s, Returned) else s
    case MarkRto(user) =>
      if o.deliveryBoy == Some(user) && o.phase == OutForDelivery
      then s.(order := o.(phase := Rto, status := InTransit, rider := Some(user), payoutOnHold := false)) else s
  }

  /** Every step but the quality check. */
  function Handled(s: State, e: Event): (t: State)
    requires !e.QualityCheck?
    ensures t == s.(order := t.order, pickupOtp := t.pickupOtp, background := t.background,
                    riderCredits := t.riderCredits, sellerAvailable := t.sellerAvailable)
    ensures s.order.status != NoReturn && s.order.status != Requested ==> GoesOn(s.order, t.order)
    ensures s.order.status != Returned ==> (t.order.status == Returned <==> Reopens(s, e))
  {
    if FromDesk(e) then AtDesk(s, e) else OnTheRoad(s, e)
  }

  /** `updateReturnQcStatus` of a returned order. */
  function CheckedNow(s: State, passed: bool, payoutCancelled: bool): (t: State)
    ensures SameTerms(s.order, t.order)
    ensures t.order.status == if !passed then QcFailed else if Repeats(s) then QcPassed else RefundCompleted
    ensures t.customerCredits == s.customerCredits + if passed && RefundsCustomer(s.order) then [Refund(s.order)] else []
    ensures t.records.refund <==> s.records.refund || (passed && RefundsCustomer(s.order))
    ensures |t.sellerDebits| <= |s.sellerDebits| + if passed then 1 else 0
    ensures !passed || (RefundsCustomer(s.order) && s.records.refund) ==> t.sellerDebits == s.sellerDebits && t.riderCredits == s.riderCredits
  {
    if passed then CompleteReturn(To(s, QcPassed), payoutCancelled) else To(s, QcFailed)
  }

  /** `updateReturnQcStatus`. */
  function Checked(s: State, passed: bool, payoutCancelled: bool): State {
    if s.order.status == Returned then CheckedNow(s, passed, payoutCancelled) else s
  }

  function Step(s: State, e: Event): State {
    if e.QualityCheck? then Checked(s, e.passed, e.payoutCancelled) else Handled(s, e)
  }

  function Run(s: State, es: seq<Event>): State
    decreases |es|
  {
    if es == [] then s else Run(Step(s, es[0]), es[1..])
  }

  lemma RunTwo(s: State, a: Event, b: Event)
    ensures Run(s, [a, b]) == Step(Step(s, a), b)
  {
    assert [a, b][1..] == [b] && [b][1..] == [];
    assert Run(Step(s, a), [b]) == Run(Step(Step(s, a), b), []);
  }

  // ---------------------------------------------------------------- runs and what they count

  function Sum(xs: seq<nat>): nat {
    if xs == [] then 0 else xs[0] + Sum(xs[1..])
  }

  function Amounts(cs: seq<Credit>): seq<nat> {
    seq(|cs|, i requires 0 <= i < |cs| => cs[i].amount)
  }

  /** No completion has written anything yet. */
  predicate Unbooked(s: State) {
    s.customerCredits == [] && s.sellerDebits == [] && s.records == Records(false, false, false)
  }

  /** An order before its return begins. */
  predicate Untouched(s: State) {
    && s.order.status == NoReturn && !s.order.commissionPaid && (s.order.payoutHeldFlag ==> s.flagsDeclared)
    && !s.pickupOtp && s.background == [] && Unbooked(s) && s.riderCredits == []
  }

  /** How often a pickup OTP was accepted along a run. */
  function Acceptances(s: State, es: seq<Event>): nat
    decreases |es|
  {
    if es == [] then 0
    else (if es[0].VerifyPickupOtp? && es[0].matches && s.pickupOtp then 1 else 0) + Acceptances(Step(s, es[0]), es[1..])
  }

  /** The quality checks passed along a run. */
  function Completions(s: State, es: seq<Event>): nat
    decreases |es|
  {
    if es == [] then 0
    else (if es[0].QualityCheck? && es[0].passed && s.order.status == Returned then 1 else 0) + Completions(Step(s, es[0]), es[1..])
  }

  lemma Unroll(s: State, e: Event, rest: seq<Event>, all: seq<Event>)
    requires all == [e] + rest
    ensures Run(s, all) == Run(Step(s, e), rest)
    ensures Acceptances(s, all) == (if e.VerifyPickupOtp? && e.matches && s.pickupOtp then 1 else 0) + Acceptances(Step(s, e), rest)
    ensures Completions(s, all) == (if e.QualityCheck? && e.passed && s.order.status == Returned then 1 else 0)
                                   + Completions(Step(s, e), rest)
  {
    assert all[0] == e && all[1..] == rest;
  }

  lemma RunOne(s: State, e: Event)
    ensures Run(s, [e]) == Step(s, e)
    ensures Acceptances(s, [e]) == if e.VerifyPickupOtp? && e.matches && s.pickupOtp then 1 else 0
    ensures Completions(s, [e]) == if e.QualityCheck? && e.passed && s.order.status == Returned then 1 else 0
  {
    Unroll(s, e, [], [e]);
  }

  /** Runs and their counts, one step longer. */
  lemma {:induction false} RunOn(s: State, es: seq<Event>, e: Event)
    ensures Run(s, es + [e]) == Step(Run(s, es), e)
    ensures Acceptances(s, es + [e]) == Acceptances(s, es) + if e.VerifyPickupOtp? && e.matches && Run(s, es).pickupOtp then 1 else 0
    ensures Completions(s, es + [e]) ==
              Completions(s, es) + if e.QualityCheck? && e.passed && Run(s, es).order.status == Returned then 1 else 0
    decreases |es|
  {
    if es == [] {
      assert [] + [e] == [e];
      RunOne(s, e);
    } else {
      var t, rest := Step(s, es[0]), es[1..] + [e];
      assert es + [e] == [es[0]] + rest && es == [es[0]] + es[1..];
      RunOn(t, es[1..], e);
      Unroll(s, es[0], rest, es + [e]);
      Unroll(s, es[0], es[1..], es);
    }
  }

  lemma {:induction false} SumAppend(xs: seq<nat>, x: nat)
    ensures Sum(xs + [x]) == Sum(xs) + x
    decreases |xs|
  {
    if xs == [] {
      assert [] + [x] == [x] && [x][1..] == [];
    } else {
      SumAppend(xs[1..], x);
      assert (xs + [x])[1..] == xs[1..] + [x];
    }
  }

  /** The price of every single unit. */
  function Units(items: seq<Item>): seq<nat> {
    if items == [] then [] else seq(items[0].quantity, _ => items[0].price) + Units(items[1..])
  }

  lemma {:induction false} SumJoin(xs: seq<nat>, ys: seq<nat>)
    ensures Sum(xs + ys) == Sum(xs) + Sum(ys)
    decreases |xs|
  {
    if xs == [] {
      assert xs + ys == ys;
    } else {
      SumJoin(xs[1..], ys);
      assert (xs + ys)[1..] == xs[1..] + ys;
    }
  }

  lemma {:induction false} SumEqual(x: nat, n: nat)
    ensures Sum(seq(n, _ => x)) == x * n
    decreases n
  {
    if n > 0 {
      SumEqual(x, n - 1);
      assert seq(n, _ => x)[1..] == seq(n - 1, _ => x);
      assert x * n == x + x * (n - 1);
    }
  }

  /** The amount to refund is the price of every single unit returned. */
  lemma {:induction false} TotalIsUnits(items: seq<Item>)
    ensures Total(items) == Sum(Units(items))
    decreases |items|
  {
    if items != [] {
      TotalIsUnits(items[1..]);
      SumJoin(seq(items[0].quantity, _ => items[0].price), Units(items[1..]));
      SumEqual(items[0].price, items[0].quantity);
    }
  }

  lemma UnitsOfOne(p: nat, q: nat)
    ensures Total([Item(p, q)]) == p * q == Sum(Units([Item(p, q)]))
  {
    assert [Item(p, q)][1..] == [];
    TotalIsUnits([Item(p, q)]);
  }

  lemma {:induction false} TotalJoin(a: seq<Item>, b: seq<Item>)
    ensures Total(a + b) == Total(a) + Total(b)
    decreases |a|
  {
    if a == [] {
      assert a + b == b;
    } else {
      TotalJoin(a[1..], b);
      assert (a + b)[1..] == a[1..] + b;
    }
  }
}
