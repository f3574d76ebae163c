/**
  Cancelling online orders whose payment never came (backend/app/jobs/orderAutoCancelJob.js, lines
  115-163, with backend/app/services/orderCompensation.js, lines 10-18), in a race with payment
  events (backend/app/services/paymentService.js, lines 274-288, 362-425 and 440-450) and with
  other instances of the scheduler. Every database call is a step of its own.
*/
module PaymentTimeout {
  import opened Common

  datatype Workflow = Created | SellerPending | Cancelled

  datatype Payment = Unpaid | Paid | Failed | Refunded

  /** `captured` and `released` are flags of the document; the last five fields only count what
      has happened to the order. */
  datatype Order = Order(online: bool, expiresAt: nat, workflow: Workflow, payment: Payment,
                         captured: bool, released: bool,
                         timeouts: nat, failures: nat, accepted: nat, compensations: nat, restocks: nat)

  /** One run of the job on one instance: the rows still to do, and the order it is compensating
      together with what it has read of the stock reservation. */
  datatype Sweep = Sweep(todo: seq<nat>, busy: Option<nat>, sawReleased: Option<bool>)

  datatype World = World(orders: seq<Order>, sweeps: seq<Sweep>)

  datatype Move =
    | Scan(now: nat)
    | Guard(sweep: nat)
    | Load(sweep: nat)
    | Release(sweep: nat)
    | Abandon(sweep: nat)
    | Pay(order: nat)
    | Accept(order: nat)
    | Fail(order: nat)
    | Restate(order: nat, payment: Payment)

  // ---------------------------------------------------------------- single database calls

  /** The scan of the job. */
  predicate Due(o: Order, now: nat) {
    o.workflow == Created && o.online && o.payment != Paid && !o.released && o.expiresAt <= now
  }

  function DueFrom(orders: seq<Order>, now: nat, i: nat): (ids: seq<nat>)
    requires i <= |orders|
    ensures forall k :: 0 <= k < |ids| ==> i <= ids[k] < |orders|
    decreases |orders| - i
  {
    if i == |orders| then []
    else (if Due(orders[i], now) then [i] else []) + DueFrom(orders, now, i + 1)
  }

  /** The filter of the guarded update. */
  predicate Cancellable(o: Order) {
    o.workflow == Created && o.payment != Paid
  }

  function TimedOut(o: Order): Order {
    o.(workflow := Cancelled, timeouts := o.timeouts + 1)
  }

  /** Gives the stock back unless the reservation was seen to be released already. */
  function Compensated(o: Order, sawReleased: bool): Order {
    o.(compensations := o.compensations + 1, released := true,
       restocks := if sawReleased then o.restocks else o.restocks + 1)
  }

  function PaidNow(o: Order): Order {
    if o.captured then o else o.(captured := true, payment := Paid)
  }

  /** `moveOrderToSellerPendingAfterPayment`, which the capture handler calls next. */
  function AcceptedNow(o: Order): Order {
    if o.captured && o.workflow == Created && o.online
    then o.(workflow := SellerPending, accepted := o.accepted + 1) else o
  }

  /** The transaction of a failed payment. */
  function FailedNow(o: Order): Order {
    if o.workflow != Created then o
    else o.(workflow := Cancelled, payment := Failed, failures := o.failures + 1,
            released := true, restocks := if o.released then o.restocks else o.restocks + 1)
  }

  // ---------------------------------------------------------------- steps

  predicate InBounds(w: World) {
    forall t :: t in w.sweeps ==>
      && (forall k :: 0 <= k < |t.todo| ==> t.todo[k] < |w.orders|)
      && (t.busy.Some? ==> t.busy.value < |w.orders|)
  }

  function SetOrder(w: World, i: nat, o: Order): World
    requires i < |w.orders|
  {
    w.(orders := w.orders[i := o])
  }

  function SetSweep(w: World, k: nat, t: Sweep): World
    requires k < |w.sweeps|
  {
    w.(sweeps := w.sweeps[k := t])
  }

  function GuardStep(w: World, k: nat): World
    requires InBounds(w) && k < |w.sweeps| && w.sweeps[k].todo != []
  {
    var t := w.sweeps[k];
    assert t in w.sweeps;
    var i := t.todo[0];
    if Cancellable(w.orders[i])
    then SetSweep(SetOrder(w, i, TimedOut(w.orders[i])), k, Sweep(t.todo[1..], Some(i), None))
    else SetSweep(w, k, Sweep(t.todo[1..], None, None))
  }

  function Step(w: World, m: Move): World
    requires InBounds(w)
  {
    match m
    case Scan(now) => w.(sweeps := w.sweeps + [Sweep(DueFrom(w.orders, now, 0), None, None)])
    case Guard(k) =>
      if k < |w.sweeps| && w.sweeps[k].busy.None? && w.sweeps[k].todo != [] then GuardStep(w, k) else w
    case Load(k) =>
      if k < |w.sweeps| && w.sweeps[k].busy.Some? then
        assert w.sweeps[k] in w.sweeps;
        SetSweep(w, k, w.sweeps[k].(sawReleased := Some(w.orders[w.sweeps[k].busy.value].released)))
      else w
    case Release(k) =>
      if k < |w.sweeps| && w.sweeps[k].busy.Some? && w.sweeps[k].sawReleased.Some? then
        var t := w.sweeps[k];
        assert t in w.sweeps;
        var i := t.busy.value;
        SetSweep(SetOrder(w, i, Compensated(w.orders[i], t.sawReleased.value)), k, Sweep(t.todo, None, None))
      else w
    case Abandon(k) =>
      if k < |w.sweeps| && w.sweeps[k].busy.Some? then SetSweep(w, k, Sweep(w.sweeps[k].todo, None, None)) else w
    case Pay(i) => if i < |w.orders| then SetOrder(w, i, PaidNow(w.orders[i])) else w
    case Accept(i) => if i < |w.orders| then SetOrder(w, i, AcceptedNow(w.orders[i])) else w
    case Fail(i) => if i < |w.orders| then SetOrder(w, i, FailedNow(w.orders[i])) else w
    case Restate(i, p) =>
      // a refund or a payment still under way just overwrites the payment status
      if i < |w.orders| && p in {Unpaid, Refunded} then SetOrder(w, i, w.orders[i].(payment := p)) else w
  }

  // ---------------------------------------------------------------- what every interleaving keeps

  /** An order leaves `Created` once, by one of three doors, and its stock comes back once. */
  predicate OneDoor(o: Order) {
    && o.timeouts + o.failures + o.accepted == (if o.workflow == Created then 0 else 1)
    && (o.workflow == SellerPending <==> o.accepted == 1)
    && o.compensations <= o.timeouts
    && o.restocks == o.compensations + o.failures
    && (o.released <==> o.restocks == 1)
  }

  /** A run that is compensating owns its order: timed out, and the stock not given back. */
  predicate Owns(o: Order) {
    o.timeouts == 1 && o.compensations == 0 && o.failures == 0
  }

  ghost predicate Inv(w: World) {
    && InBounds(w)
    && (forall i :: 0 <= i < |w.orders| ==> OneDoor(w.orders[i]))
    && (forall k :: 0 <= k < |w.sweeps| && w.sweeps[k].busy.Some? ==>
          w.sweeps[k].busy.value < |w.orders| && Owns(w.orders[w.sweeps[k].busy.value]))
    && (forall k :: 0 <= k < |w.sweeps| && w.sweeps[k].sawReleased.Some? ==> w.sweeps[k].busy.Some? && !w.sweeps[k].sawReleased.value)
    && (forall j, k :: 0 <= j < k < |w.sweeps| && w.sweeps[j].busy.Some? && w.sweeps[k].busy.Some?
          ==> w.sweeps[j].busy != w.sweeps[k].busy)
  }

  lemma OrderStepKeeps(w: World, i: nat, o: Order)
    requires Inv(w) && i < |w.orders| && OneDoor(o)
    requires Owns(w.orders[i]) ==> Owns(o)
    ensures Inv(SetOrder(w, i, o))
  {
    var v := SetOrder(w, i, o);
    forall t | t in v.sweeps
      ensures forall k :: 0 <= k < |t.todo| ==> t.todo[k] < |v.orders|
      ensures t.busy.Some? ==> t.busy.value < |v.orders|
    {
      assert t in w.sweeps;
    }
  }

  lemma ScanKeeps(w: World, now: nat)
    requires Inv(w)
    ensures Inv(Step(w, Scan(now)))
  {
    var v := Step(w, Scan(now));
    forall u | u in v.sweeps
      ensures forall j :: 0 <= j < |u.todo| ==> u.todo[j] < |v.orders|
      ensures u.busy.Some? ==> u.busy.value < |v.orders|
    {
      assert u == v.sweeps[|w.sweeps|] || u in w.sweeps;
    }
  }

  /** Winning the guarded update makes the run the only owner of the order. */
  lemma GuardKeeps(w: World, k: nat)
    requires Inv(w) && k < |w.sweeps| && w.sweeps[k].busy.None? && w.sweeps[k].todo != []
    ensures Inv(GuardStep(w, k))
  {
    var t := w.sweeps[k];
    assert t in w.sweeps;
    var i := t.todo[0];
    var rest := Sweep(t.todo[1..], None, None);
    if Cancellable(w.orders[i]) {
      var u := SetOrder(w, i, TimedOut(w.orders[i]));
      OrderStepKeeps(w, i, TimedOut(w.orders[i]));
      assert forall j :: 0 <= j < |w.sweeps| && w.sweeps[j].busy.Some? ==> w.sweeps[j].busy.value != i;
      var v := GuardStep(w, k);
      forall x | x in v.sweeps
        ensures forall j :: 0 <= j < |x.todo| ==> x.todo[j] < |v.orders|
        ensures x.busy.Some? ==> x.busy.value < |v.orders|
      {
        assert x == v.sweeps[k] || x in w.sweeps;
      }
    }
  }

  lemma LoadKeeps(w: World, k: nat)
    requires Inv(w)
    ensures Inv(Step(w, Load(k)))
  {
    if k < |w.sweeps| && w.sweeps[k].busy.Some? {
      assert w.sweeps[k] in w.sweeps;
      assert OneDoor(w.orders[w.sweeps[k].busy.value]);
      var v := Step(w, Load(k));
      forall x | x in v.sweeps
        ensures forall j :: 0 <= j < |x.todo| ==> x.todo[j] < |v.orders|
        ensures x.busy.Some? ==> x.busy.value < |v.orders|
      {
        assert x == v.sweeps[k] || x in w.sweeps;
      }
    }
  }

  lemma ReleaseKeeps(w: World, k: nat)
    requires Inv(w)
    ensures Inv(Step(w, Release(k)))
  {
    if k < |w.sweeps| && w.sweeps[k].busy.Some? && w.sweeps[k].sawReleased.Some? {
      var t := w.sweeps[k];
      assert t in w.sweeps;
      var i := t.busy.value;
      var u := SetSweep(w, k, Sweep(t.todo, None, None));
      assert forall j :: 0 <= j < |u.sweeps| && u.sweeps[j].busy.Some? ==> u.sweeps[j].busy.value != i;
      var o := Compensated(w.orders[i], t.sawReleased.value);
      assert OneDoor(w.orders[i]) && OneDoor(o);
      var v := SetOrder(u, i, o);
      forall x | x in v.sweeps
        ensures forall j :: 0 <= j < |x.todo| ==> x.todo[j] < |v.orders|
        ensures x.busy.Some? ==> x.busy.value < |v.orders|
      {
        assert x in u.sweeps;
      }
      assert Step(w, Release(k)) == v;
    }
  }

  lemma StepKeeps(w: World, m: Move)
    requires Inv(w)
    ensures Inv(Step(w, m))
  {
    match m
    case Scan(now) => ScanKeeps(w, now);
    case Guard(k) => if k < |w.sweeps| && w.sweeps[k].busy.None? && w.sweeps[k].todo != [] { GuardKeeps(w, k); }
    case Load(k) => LoadKeeps(w, k);
    case Release(k) => ReleaseKeeps(w, k);
    case Abandon(k) =>
      if k < |w.sweeps| && w.sweeps[k].busy.Some? {
        assert w.sweeps[k] in w.sweeps;
      }
    case Pay(i) => if i < |w.orders| { OrderStepKeeps(w, i, PaidNow(w.orders[i])); }
    case Accept(i) => if i < |w.orders| { OrderStepKeeps(w, i, AcceptedNow(w.orders[i])); }
    case Fail(i) => if i < |w.orders| { OrderStepKeeps(w, i, FailedNow(w.orders[i])); }
    case Restate(i, p) => if i < |w.orders| { OrderStepKeeps(w, i, w.orders[i].(payment := p)); }
  }

  function Run(w: World, ms: seq<Move>): (v: World)
    requires Inv(w)
    ensures Inv(v)
    decreases |ms|
  {
    if ms == [] then w else StepKeeps(w, ms[0]); Run(Step(w, ms[0]), ms[1..])
  }

  /** An order as it is placed. */
  predicate New(o: Order) {
    && o.workflow == Created && !o.released && !o.captured && o.payment == Unpaid
    && o.timeouts == o.failures == o.accepted == o.compensations == o.restocks == 0
  }

  lemma NewWorld(w: World)
    requires w.sweeps == [] && forall o :: o in w.orders ==> New(o)
    ensures Inv(w)
  {
    forall i | 0 <= i < |w.orders| ensures OneDoor(w.orders[i]) {
      assert w.orders[i] in w.orders;
    }
  }

  /**
    Over any interleaving of any number of scheduler instances with captures, failed payments and
    refunds, each order is timed out, failed or accepted at most once and only one of the three,
    compensated at most once and only if timed out, and its stock is given back exactly once for
    every compensation or failed payment.
  */
  lemma EachOrderLeavesOnce(w: World, ms: seq<Move>)
    requires w.sweeps == [] && forall o :: o in w.orders ==> New(o)
    ensures Inv(w)
    ensures forall i :: 0 <= i < |Run(w, ms).orders| ==>
              var o := Run(w, ms).orders[i];
              && o.timeouts + o.failures + o.accepted <= 1
              && o.compensations <= o.timeouts
              && o.restocks == o.compensations + o.failures
              && (o.workflow == SellerPending ==> o.compensations == 0 && o.restocks == 0)
  {
    NewWorld(w);
    forall i | 0 <= i < |Run(w, ms).orders| ensures OneDoor(Run(w, ms).orders[i]) {
    }
  }

  // ---------------------------------------------------------------- paid orders

  /** The guarded update of run `k` finds order `i` still created and not paid. */
  predicate Wins(w: World, k: nat, i: nat) {
    k < |w.sweeps| && w.sweeps[k].busy.None? && w.sweeps[k].todo != [] && w.sweeps[k].todo[0] == i && i < |w.orders|
      && Cancellable(w.orders[i])
  }

  /** A step times an order out exactly when it is a guarded update that finds it still created and
      not paid. */
  lemma TimeoutMeetsUnpaid(w: World, m: Move, i: nat)
    requires Inv(w) && i < |w.orders|
    ensures |Step(w, m).orders| == |w.orders|
    ensures Step(w, m).orders[i].timeouts != w.orders[i].timeouts <==> m.Guard? && Wins(w, m.sweep, i)
    ensures m.Guard? && Wins(w, m.sweep, i) ==> Step(w, m).orders[i] == TimedOut(w.orders[i])
  {
  }

  ghost predicate SomeGuardWins(w: World, ms: seq<Move>, i: nat)
    requires Inv(w)
    decreases |ms|
  {
    ms != [] && (
      (ms[0].Guard? && Wins(w, ms[0].sweep, i))
      || (StepKeeps(w, ms[0]); SomeGuardWins(Step(w, ms[0]), ms[1..], i)))
  }

  /** Over any interleaving an order is timed out exactly if some guarded update comes to it while it
      is created and not paid, and then once. */
  lemma {:induction false} TimedOutIff(w: World, ms: seq<Move>, i: nat)
    requires Inv(w) && i < |w.orders|
    ensures |Run(w, ms).orders| == |w.orders|
    ensures Run(w, ms).orders[i].timeouts == w.orders[i].timeouts + if SomeGuardWins(w, ms, i) then 1 else 0
    decreases |ms|
  {
    if ms != [] {
      var v := Step(w, ms[0]);
      StepKeeps(w, ms[0]);
      TimeoutMeetsUnpaid(w, ms[0], i);
      TimedOutIff(v, ms[1..], i);
      assert OneDoor(w.orders[i]) && OneDoor(Run(w, ms).orders[i]);
    }
  }

  // ---------------------------------------------------------------- only after expiry

  /** The scan lists every due order once. */
  lemma {:induction false} DueFromMeaning(orders: seq<Order>, now: nat, i: nat)
    requires i <= |orders|
    ensures var ids := DueFrom(orders, now, i);
            && (forall j, k :: 0 <= j < k < |ids| ==> ids[j] != ids[k])
            && (forall p: nat :: p in ids <==> i <= p < |orders| && Due(orders[p], now))
    decreases |orders| - i
  {
    if i < |orders| {
      DueFromMeaning(orders, now, i + 1);
      var rest := DueFrom(orders, now, i + 1);
      var ids := DueFrom(orders, now, i);
      if Due(orders[i], now) {
        assert ids == [i] + rest;
        forall j, k | 0 <= j < k < |ids| ensures ids[j] != ids[k] {
          assert ids[k] == rest[k - 1] && ids[k] in rest;
          assert j > 0 ==> ids[j] == rest[j - 1];
        }
      }
    }
  }

  /** Some scan among the moves found the order online and past its expiry. */
  ghost predicate Expired(o: Order, ms: seq<Move>) {
    o.online && exists m :: m in ms && m.Scan? && o.expiresAt <= m.now
  }

  /** Whatever is listed or timed out has expired at a scan. */
  ghost predicate OnlyExpired(w: World, past: seq<Move>) {
    && (forall k, j :: 0 <= k < |w.sweeps| && 0 <= j < |w.sweeps[k].todo| ==>
          w.sweeps[k].todo[j] < |w.orders| && Expired(w.orders[w.sweeps[k].todo[j]], past))
    && (forall i :: 0 <= i < |w.orders| && w.orders[i].timeouts > 0 ==> Expired(w.orders[i], past))
  }

  predicate SameTerms(o: Order, t: Order) {
    t.online == o.online && t.expiresAt == o.expiresAt
  }

  lemma StepKeepsTerms(w: World, m: Move, i: nat)
    requires Inv(w) && i < |w.orders|
    ensures |Step(w, m).orders| == |w.orders| && SameTerms(w.orders[i], Step(w, m).orders[i])
  {
  }

  lemma ExpiredOn(o: Order, t: Order, past: seq<Move>, m: Move)
    requires Expired(o, past) && SameTerms(o, t)
    ensures Expired(t, past + [m])
  {
    var s :| s in past && s.Scan? && o.expiresAt <= s.now;
    assert s in past + [m];
  }

  lemma StepOnlyExpired(w: World, past: seq<Move>, m: Move)
    requires Inv(w) && OnlyExpired(w, past)
    ensures OnlyExpired(Step(w, m), past + [m])
  {
    var v := Step(w, m);
    forall k, j | 0 <= k < |v.sweeps| && 0 <= j < |v.sweeps[k].todo|
      ensures v.sweeps[k].todo[j] < |v.orders| && Expired(v.orders[v.sweeps[k].todo[j]], past + [m])
    {
      var p := v.sweeps[k].todo[j];
      if k < |w.sweeps| {
        var i :| 0 <= i < |w.sweeps[k].todo| && w.sweeps[k].todo[i] == p;
        StepKeepsTerms(w, m, p);
        ExpiredOn(w.orders[p], v.orders[p], past, m);
      } else {
        DueFromMeaning(w.orders, m.now, 0);
        assert m in past + [m] && v.orders[p].expiresAt <= m.now;
      }
    }
    forall i | 0 <= i < |v.orders| && v.orders[i].timeouts > 0 ensures Expired(v.orders[i], past + [m]) {
      TimeoutMeetsUnpaid(w, m, i);
      StepKeepsTerms(w, m, i);
      if v.orders[i].timeouts != w.orders[i].timeouts {
        assert w.sweeps[m.sweep].todo[0] == i;
      }
      ExpiredOn(w.orders[i], v.orders[i], past, m);
    }
  }

  lemma {:induction false} RunOnlyExpired(w: World, past: seq<Move>, ms: seq<Move>)
    requires Inv(w) && OnlyExpired(w, past)
    ensures OnlyExpired(Run(w, ms), past + ms)
    decreases |ms|
  {
    if ms == [] {
      assert past + ms == past;
    } else {
      StepKeeps(w, ms[0]);
      StepOnlyExpired(w, past, ms[0]);
      RunOnlyExpired(Step(w, ms[0]), past + [ms[0]], ms[1..]);
      assert past + [ms[0]] + ms[1..] == past + ms;
    }
  }

  lemma {:induction false} RunKeepsTerms(w: World, ms: seq<Move>, i: nat)
    requires Inv(w) && i < |w.orders|
    ensures |Run(w, ms).orders| == |w.orders| && SameTerms(w.orders[i], Run(w, ms).orders[i])
    decreases |ms|
  {
    if ms != [] {
      StepKeeps(w, ms[0]);
      StepKeepsTerms(w, ms[0], i);
      RunKeepsTerms(Step(w, ms[0]), ms[1..], i);
    }
  }

  /** Over any interleaving of new orders an order is timed out, or compensated, only if it is an
      online one and some scan of the job came at or after its expiry. */
  lemma TimedOutAfterExpiry(w: World, ms: seq<Move>, i: nat)
    requires w.sweeps == [] && (forall o :: o in w.orders ==> New(o)) && i < |w.orders|
    ensures Inv(w) && i < |Run(w, ms).orders|
    ensures Run(w, ms).orders[i].timeouts > 0 || Run(w, ms).orders[i].compensations > 0 ==>
              w.orders[i].online && exists t: nat :: Scan(t) in ms && w.orders[i].expiresAt <= t
  {
    NewWorld(w);
    forall j | 0 <= j < |w.orders| ensures w.orders[j].timeouts == 0 {
      assert w.orders[j] in w.orders;
    }
    RunOnlyExpired(w, [], ms);
    RunKeepsTerms(w, ms, i);
    assert [] + ms == ms;
    var o := Run(w, ms).orders[i];
    assert OneDoor(o);
    if o.timeouts > 0 {
      var m :| m in ms && m.Scan? && o.expiresAt <= m.now;
      assert m == Scan(m.now);
    }
  }

  /** Paid, or past the point where it could be timed out. */
  predicate Safe(o: Order) {
    o.timeouts == 0 && o.compensations == 0 && (o.payment == Paid || o.workflow != Created)
  }

  lemma SafeStep(w: World, m: Move, i: nat)
    requires Inv(w) && i < |w.orders| && Safe(w.orders[i]) && m != Restate(i, Unpaid) && m != Restate(i, Refunded)
    ensures |Step(w, m).orders| == |w.orders| && Safe(Step(w, m).orders[i])
  {
    TimeoutMeetsUnpaid(w, m, i);
    if m.Release? && Step(w, m) != w {
      assert Owns(w.orders[w.sweeps[m.sweep].busy.value]);
    }
  }

  /** An order that is paid before the guarded update is never compensated for a timeout, whatever
      the instances had scanned before, as long as its payment status is not overwritten. */
  lemma {:induction false} PaidIsNeverTimedOut(w: World, ms: seq<Move>, i: nat)
    requires Inv(w) && i < |w.orders| && w.orders[i].timeouts == 0
    requires w.orders[i].payment == Paid || Safe(w.orders[i])
    requires Restate(i, Unpaid) !in ms && Restate(i, Refunded) !in ms
    ensures i < |Run(w, ms).orders| && Run(w, ms).orders[i].timeouts == 0 && Run(w, ms).orders[i].compensations == 0
    decreases |ms|
  {
    assert OneDoor(w.orders[i]);
    if ms != [] {
      assert ms[0] in ms && forall m :: m in ms[1..] ==> m in ms;
      SafeStep(w, ms[0], i);
      StepKeeps(w, ms[0]);
      PaidIsNeverTimedOut(Step(w, ms[0]), ms[1..], i);
    }
  }

  // ---------------------------------------------------------------- what the race leaves open

  /** Once an order has left `Created` its workflow never changes again. */
  lemma {:induction false} StaysDecided(w: World, ms: seq<Move>, i: nat)
    requires Inv(w) && i < |w.orders| && w.orders[i].workflow != Created
    ensures i < |Run(w, ms).orders| && Run(w, ms).orders[i].workflow == w.orders[i].workflow
    decreases |ms|
  {
    if ms != [] {
      StepKeeps(w, ms[0]);
      StepStaysDecided(w, ms[0], i);
      StaysDecided(Step(w, ms[0]), ms[1..], i);
    }
  }

  lemma StepStaysDecided(w: World, m: Move, i: nat)
    requires Inv(w) && i < |w.orders| && w.orders[i].workflow != Created
    ensures |Step(w, m).orders| == |w.orders| && Step(w, m).orders[i].workflow == w.orders[i].workflow
  {
  }

  /** A payment captured after the guarded update is recorded on the cancelled order all the same,
      and the order is never accepted. */
  lemma {:induction false} LatePaymentStaysCancelled(w: World, k: nat, i: nat, later: seq<Move>)
    requires Inv(w) && Wins(w, k, i) && !w.orders[i].captured
    ensures var v := Step(Step(w, Guard(k)), Pay(i));
            && Inv(v) && v.orders[i].workflow == Cancelled && v.orders[i].payment == Paid
            && i < |Run(v, later).orders| && Run(v, later).orders[i].workflow == Cancelled
            && Run(v, later).orders[i].accepted == 0
  {
    StepKeeps(w, Guard(k));
    StepKeeps(Step(w, Guard(k)), Pay(i));
    var v := Step(Step(w, Guard(k)), Pay(i));
    StaysDecided(v, later, i);
    assert OneDoor(Run(v, later).orders[i]);
  }

  /** An order paid and refunded before it is accepted can be timed out after all. */
  lemma RefundedIsTimedOut(w: World, k: nat, i: nat)
    requires Inv(w) && Wins(w, k, i)
    ensures var paid := Step(w, Pay(i));
            && Inv(paid)
            && (!w.orders[i].captured ==> Step(paid, Guard(k)).orders[i].timeouts == 0)
            && var refunded := Step(paid, Restate(i, Refunded));
               Inv(refunded) && Step(refunded, Guard(k)).orders[i].timeouts == 1
  {
    assert OneDoor(w.orders[i]);
    StepKeeps(w, Pay(i));
    StepKeeps(Step(w, Pay(i)), Restate(i, Refunded));
  }

  // ---------------------------------------------------------------- payments that come in time

  /** What the payment events do to an order: a first capture pays it, a repeated one changes nothing;
      a captured online order that is still created is accepted, and nothing else is; a failure cancels
      a created order and gives its stock back unless that was done, and changes nothing afterwards. */
  lemma PaymentEvents(w: World, i: nat)
    requires Inv(w) && i < |w.orders|
    ensures var o, t := w.orders[i], Step(w, Pay(i));
            && t.sweeps == w.sweeps
            && t.orders == w.orders[i := if o.captured then o else o.(captured := true, payment := Paid)]
    ensures var o, t := w.orders[i], Step(w, Accept(i));
            && t.sweeps == w.sweeps
            && t.orders == w.orders[i := if o.captured && o.online && o.workflow == Created
                                         then o.(workflow := SellerPending, accepted := o.accepted + 1) else o]
    ensures var o, t := w.orders[i], Step(w, Fail(i));
            && t.sweeps == w.sweeps
            && (o.workflow != Created ==> t.orders == w.orders)
            && (o.workflow == Created ==>
                  t.orders == w.orders[i := o.(workflow := Cancelled, payment := Failed, failures := o.failures + 1,
                                               released := true, restocks := o.restocks + if o.released then 0 else 1)])
  {
    assert w.orders[i := w.orders[i]] == w.orders;
  }

  /** A payment captured while the order is still created is accepted, and no instance of the job ever
      times the order out afterwards. */
  lemma PaidInTimeIsAccepted(w: World, i: nat, later: seq<Move>)
    requires Inv(w) && i < |w.orders| && w.orders[i].workflow == Created && w.orders[i].online && !w.orders[i].captured
    ensures var v := Step(Step(w, Pay(i)), Accept(i));
            && Inv(v) && i < |Run(v, later).orders|
            && var o := Run(v, later).orders[i];
               o.workflow == SellerPending && o.accepted == 1 && o.timeouts == 0 && o.compensations == 0 && o.restocks == 0
  {
    StepKeeps(w, Pay(i));
    var u := Step(w, Pay(i));
    StepKeeps(u, Accept(i));
    var v := Step(u, Accept(i));
    PaymentEvents(w, i);
    PaymentEvents(u, i);
    StaysDecided(v, later, i);
    assert OneDoor(Run(v, later).orders[i]);
  }

  // ---------------------------------------------------------------- one row of a sweep

  lemma GuardTakes(w: World, k: nat, i: nat, next: Sweep)
    requires Inv(w) && Wins(w, k, i) && next == Sweep(w.sweeps[k].todo[1..], None, None)
    ensures Step(w, Guard(k)) == World(w.orders[i := TimedOut(w.orders[i])], w.sweeps[k := next.(busy := Some(i))])
  {
  }

  lemma LoadSees(w: World, k: nat, i: nat)
    requires Inv(w) && k < |w.sweeps| && w.sweeps[k].busy == Some(i)
    ensures i < |w.orders|
    ensures Step(w, Load(k)) == World(w.orders, w.sweeps[k := w.sweeps[k].(sawReleased := Some(w.orders[i].released))])
  {
  }

  lemma ReleaseGives(w: World, k: nat, i: nat)
    requires Inv(w) && k < |w.sweeps| && w.sweeps[k].busy == Some(i) && w.sweeps[k].sawReleased == Some(false)
    ensures i < |w.orders|
    ensures Step(w, Release(k)) == World(w.orders[i := Compensated(w.orders[i], false)], w.sweeps[k := Sweep(w.sweeps[k].todo, None, None)])
  {
  }

  lemma LastWrites(w: World, i: nat, k: nat, a: Order, b: Sweep, c: Sweep, d: Order, e: Sweep)
    requires i < |w.orders| && k < |w.sweeps|
    ensures w.sweeps[k := b][k := c][k := e] == w.sweeps[k := e]
    ensures w.orders[i := a][i := d] == w.orders[i := d]
  {
  }

  /** A row whose order is still created and not paid: the order is cancelled and compensated once, its
      stock given back, and the sweep goes on. */
  lemma RowIsSwept(w: World, k: nat, i: nat)
    requires Inv(w) && Wins(w, k, i)
    ensures Inv(Step(w, Guard(k))) && Inv(Step(Step(w, Guard(k)), Load(k)))
    ensures Step(Step(Step(w, Guard(k)), Load(k)), Release(k)) ==
              World(w.orders[i := w.orders[i].(workflow := Cancelled, released := true, timeouts := 1, compensations := 1, restocks := 1)],
                    w.sweeps[k := Sweep(w.sweeps[k].todo[1..], None, None)])
  {
    var o, next := w.orders[i], Sweep(w.sweeps[k].todo[1..], None, None);
    var busy := next.(busy := Some(i));
    var loaded := busy.(sawReleased := Some(false));
    assert OneDoor(o);
    StepKeeps(w, Guard(k));
    GuardTakes(w, k, i, next);
    var u := Step(w, Guard(k));
    StepKeeps(u, Load(k));
    LoadSees(u, k, i);
    var v := Step(u, Load(k));
    ReleaseGives(v, k, i);
    LastWrites(w, i, k, TimedOut(o), busy, loaded, Compensated(TimedOut(o), false), next);
  }

  /** Any other row is passed over. */
  lemma RowIsPassedOver(w: World, k: nat)
    requires Inv(w) && k < |w.sweeps| && w.sweeps[k].busy.None? && w.sweeps[k].todo != []
    ensures var i := w.sweeps[k].todo[0];
            i < |w.orders| && (!Wins(w, k, i) ==>
              Step(w, Guard(k)) == World(w.orders, w.sweeps[k := Sweep(w.sweeps[k].todo[1..], None, None)]))
  {
    assert w.sweeps[k] in w.sweeps;
  }

  /** Nobody is compensating the order, and nobody can begin to. */
  predicate Orphaned(w: World, i: nat) {
    && i < |w.orders| && w.orders[i].workflow == Cancelled
    && forall k :: 0 <= k < |w.sweeps| ==> w.sweeps[k].busy != Some(i)
  }

  lemma {:induction false} StaysOrphaned(w: World, ms: seq<Move>, i: nat)
    requires Inv(w) && Orphaned(w, i)
    ensures Orphaned(Run(w, ms), i) && Run(w, ms).orders[i].compensations == w.orders[i].compensations
    ensures Run(w, ms).orders[i].restocks == w.orders[i].restocks
    decreases |ms|
  {
    if ms != [] {
      StepKeeps(w, ms[0]);
      StepStaysOrphaned(w, ms[0], i);
      StaysOrphaned(Step(w, ms[0]), ms[1..], i);
    }
  }

  lemma StepStaysOrphaned(w: World, m: Move, i: nat)
    requires Inv(w) && Orphaned(w, i)
    ensures Orphaned(Step(w, m), i)
    ensures Step(w, m).orders[i].compensations == w.orders[i].compensations && Step(w, m).orders[i].restocks == w.orders[i].restocks
  {
  }

  /** A compensation that fails after the guarded update is never made up for: the order stays
      cancelled and its stock is never given back, whatever runs afterwards. */
  lemma AbandonedIsNeverCompensated(w: World, k: nat, i: nat, later: seq<Move>)
    requires Inv(w) && Wins(w, k, i)
    ensures var v := Step(Step(w, Guard(k)), Abandon(k));
            && Inv(v) && i < |Run(v, later).orders|
            && var o := Run(v, later).orders[i];
               o.workflow == Cancelled && o.timeouts == 1 && o.compensations == 0 && o.restocks == 0
  {
    assert OneDoor(w.orders[i]);
    var u := Step(w, Guard(k));
    StepKeeps(w, Guard(k));
    StepKeeps(u, Abandon(k));
    var v := Step(u, Abandon(k));
    assert u.sweeps[k].busy == Some(i);
    assert Orphaned(v, i);
    StaysOrphaned(v, later, i);
    assert OneDoor(Run(v, later).orders[i]);
  }
}
