/**
  Whose cash a submit asks for (backend/app/controller/deliveryController.js, lines 78-150), and
  what requests cover over whole runs.
*/
module CodSubmissions {
  import opened Common
  import opened CodRemittance

  /** The cash a rider has collected on COD orders that are not cancelled, and still owes. */
  function OwnCash(orders: seq<CodOrder>, rider: Id): nat {
    if orders == [] then 0
    else
      var o := orders[0];
      (if o.rider == rider && o.isCod && !o.cancelled && o.collectedFlag then o.pending else 0) + OwnCash(orders[1..], rider)
  }

  lemma {:induction false} EligibleOwes(orders: seq<CodOrder>, rider: Id, i: nat)
    requires i <= |orders|
    ensures InRange(orders, EligibleFrom(orders, rider, i))
    ensures Owed(orders, EligibleFrom(orders, rider, i)) == OwnCash(orders[i..], rider)
    decreases |orders| - i
  {
    if i < |orders| {
      EligibleOwes(orders, rider, i + 1);
      assert orders[i..][1..] == orders[i + 1..];
      var rest := EligibleFrom(orders, rider, i + 1);
      if Eligible(orders[i], rider) {
        assert ([i] + rest)[1..] == rest;
      } else {
        assert [] + rest == rest;
      }
    }
  }

  lemma {:induction false} NothingPicked(orders: seq<CodOrder>, ids: seq<nat>)
    requires InRange(orders, ids)
    ensures Picked(orders, ids, 0) == []
    decreases |ids|
  {
    if ids != [] {
      NothingPicked(orders, ids[1..]);
    }
  }

  /** The greedy pass takes orders from the front until the amount is covered, all of them if the
      amount is what they owe. */
  lemma {:induction false} PickedFromFront(orders: seq<CodOrder>, ids: seq<nat>, remaining: nat)
    requires InRange(orders, ids) && forall k :: 0 <= k < |ids| ==> orders[ids[k]].pending > 0
    ensures Picked(orders, ids, remaining) <= ids
    ensures remaining >= Owed(orders, ids) ==> Picked(orders, ids, remaining) == ids
    decreases |ids|
  {
    if ids != [] {
      if remaining == 0 {
        NothingPicked(orders, ids[1..]);
      } else {
        var left := remaining - Min(orders[ids[0]].pending, remaining);
        PickedFromFront(orders, ids[1..], left);
        assert ids == [ids[0]] + ids[1..];
      }
    }
  }

  /** A submit is accepted if and only if it asks for something and for no more than the rider's own
      cash; without an amount it asks for all of it. */
  lemma SubmissionIff(orders: seq<CodOrder>, rider: Id, requested: Option<int>)
    ensures var r, want := Submission(orders, rider, requested), if requested.Some? then requested.value else OwnCash(orders, rider);
            && (r.Some? <==> 0 < want <= OwnCash(orders, rider))
            && (r.Some? ==> r.value.amount == want)
  {
    EligibleIncreasing(orders, rider, 0);
    EligibleOwes(orders, rider, 0);
    assert orders[0..] == orders;
  }

  lemma FrontBefore(ids: seq<nat>, front: seq<nat>, p: nat, q: nat)
    requires Increasing(ids) && front <= ids && p in front && q in ids && q !in front
    ensures p < q
  {
    var j :| 0 <= j < |ids| && ids[j] == q;
    var k :| 0 <= k < |front| && front[k] == p;
    assert forall i :: 0 <= i < |front| ==> front[i] == ids[i] && front[i] in front;
  }

  /** An accepted submit covers the rider's oldest orders: none with pending cash is left out before
      one that is covered, and none at all without an amount. */
  lemma OldestFirst(orders: seq<CodOrder>, rider: Id, requested: Option<int>, q: nat)
    requires Submission(orders, rider, requested).Some? && q < |orders|
    requires var o := orders[q]; o.rider == rider && o.isCod && !o.cancelled && o.collectedFlag && o.pending > 0
    requires q !in Submission(orders, rider, requested).value.orders
    ensures requested.Some? && forall p :: p in Submission(orders, rider, requested).value.orders ==> p < q
  {
    var ids, r := EligibleFrom(orders, rider, 0), Submission(orders, rider, requested).value;
    EligibleIncreasing(orders, rider, 0);
    PickedFromFront(orders, ids, r.amount);
    forall p | p in r.orders ensures p < q {
      FrontBefore(ids, r.orders, p, q);
    }
  }

  /** Without an amount: all of the rider's orders with pending cash, and nothing else. */
  lemma WholeSubmission(orders: seq<CodOrder>, rider: Id)
    ensures var r := Submission(orders, rider, None);
            && (r.Some? <==> OwnCash(orders, rider) > 0)
            && (r.Some? ==>
                  && r.value.amount == OwnCash(orders, rider)
                  && forall p: nat :: p in r.value.orders <==>
                       && p < |orders| && orders[p].rider == rider && orders[p].isCod && !orders[p].cancelled
                       && orders[p].collectedFlag && orders[p].pending > 0)
  {
    SubmissionIff(orders, rider, None);
    SubmissionMeaning(orders, rider, None);
    var r := Submission(orders, rider, None);
    if r.Some? {
      forall p: nat | p < |orders| && Eligible(orders[p], rider) ensures p in r.value.orders {
        if p !in r.value.orders {
          OldestFirst(orders, rider, None, p);
        }
      }
    }
  }

  // ---------------------------------------------------------------- over whole runs

  /** Every request covers collected COD orders of the rider who made it. */
  predicate CoversOwn(s: State) {
    forall r, p :: r in s.requests && p in r.orders ==>
      && p < |s.orders| && s.orders[p].rider == r.rider && s.orders[p].isCod && s.orders[p].collectedFlag
  }

  lemma StepCoversOwn(s: State, e: Event)
    requires Inv(s) && CoversOwn(s)
    ensures CoversOwn(Step(s, e))
  {
    var t := Step(s, e);
    StepGrows(s, e);
    if e.Submit? {
      SubmissionMeaning(s.orders, e.rider, e.requested);
    }
    forall r, p | r in t.requests && p in r.orders
      ensures p < |t.orders| && t.orders[p].rider == r.rider && t.orders[p].isCod && t.orders[p].collectedFlag
    {
      if r !in s.requests && e.Verify? {
        assert s.requests[e.request] in s.requests;
        assert r.orders == s.requests[e.request].orders && r.rider == s.requests[e.request].rider;
      }
    }
  }

  lemma {:induction false} RunCoversOwn(s: State, es: seq<Event>)
    requires Inv(s) && CoversOwn(s)
    ensures CoversOwn(Run(s, es))
    decreases |es|
  {
    if es != [] {
      StepKeeps(s, es[0]);
      StepCoversOwn(s, es[0]);
      RunCoversOwn(Step(s, es[0]), es[1..]);
    }
  }

  /** Over any run, no rider's request ever covers another rider's cash, or cash not collected. */
  lemma RequestsCoverOwn(es: seq<Event>, r: Remit, p: nat)
    requires r in Run(EMPTY, es).requests && p in r.orders
    ensures var orders := Run(EMPTY, es).orders;
            p < |orders| && orders[p].rider == r.rider && orders[p].isCod && orders[p].collectedFlag
  {
    RunCoversOwn(EMPTY, es);
  }

  // ---------------------------------------------------------------- the way of the cash

  /** Cash on delivery comes in once: of a delivered COD order not marked yet, whatever is collected is
      owed; marking it again, or an order that is not delivered or not COD, changes nothing. */
  lemma CollectedIsOwed(s: State, at: nat, delivered: bool, amount: int)
    requires Inv(s) && at < |s.orders|
    ensures var o, t := s.orders[at], Step(s, Collect(at, delivered, amount));
            && |t.orders| == |s.orders| && (forall i :: 0 <= i < |s.orders| && i != at ==> t.orders[i] == s.orders[i])
            && t.requests == s.requests && t.direct == s.direct
            && (if o.isCod && delivered && !o.collectedFlag && amount > 0
                then t.orders[at].pending == o.pending + amount && t.orders[at].collectedFlag
                     && t.orders[at].rider == o.rider && t.orders[at].cancelled == o.cancelled
                else t.orders[at] == o)
  {
    assert Sound(s.orders[at]);
  }

  /** An administrator takes any positive amount up to what a COD order owes, and nothing beyond. */
  lemma ReconciledIsTaken(s: State, at: nat, amount: int)
    requires Inv(s) && at < |s.orders|
    ensures var o, t := s.orders[at], Step(s, Reconcile(at, amount));
            && t.requests == s.requests
            && (if o.isCod && 0 < amount <= o.pending
                then t.direct == s.direct + amount
                     && t.orders == s.orders[at := o.(remitted := o.remitted + amount, pending := o.pending - amount)]
                else t == s)
  {
    assert Sound(s.orders[at]);
  }

  lemma {:induction false} StaysCancelled(s: State, es: seq<Event>, p: nat)
    requires Inv(s) && p < |s.orders| && s.orders[p].cancelled
    ensures p < |Run(s, es).orders| && Run(s, es).orders[p].cancelled
    decreases |es|
  {
    if es != [] {
      StepKeeps(s, es[0]);
      StepKeepsCancelled(s, es[0], p);
      StaysCancelled(Step(s, es[0]), es[1..], p);
    }
  }

  lemma StepKeepsCancelled(s: State, e: Event, p: nat)
    requires Inv(s) && p < |s.orders| && s.orders[p].cancelled
    ensures p < |Step(s, e).orders| && Step(s, e).orders[p].cancelled
  {
    if e.Verify? && e.request < |s.requests| && s.requests[e.request].status == Pending && e.outcome == Captured {
      var r := s.requests[e.request];
      VerifyEffect(s, e.request);
      SettledKeepsCancelled(s.orders, r.orders, r.amount, p);
    }
  }

  lemma {:induction false} SettledKeepsCancelled(orders: seq<CodOrder>, ids: seq<nat>, remaining: nat, p: nat)
    requires AllSound(orders) && InRange(orders, ids) && p < |orders|
    ensures Settled(orders, ids, remaining)[p].cancelled == orders[p].cancelled
    decreases |ids|
  {
    if ids != [] {
      var a := orders[ids[0]].pending;
      if a == 0 || remaining == 0 {
        SettledKeepsCancelled(orders, ids[1..], remaining, p);
      } else {
        var m := Min(a, remaining);
        SettledKeepsCancelled(orders[ids[0] := Reconciled(orders[ids[0]], m)], ids[1..], remaining - m, p);
      }
    }
  }

  /** Once an order is cancelled, no later submit covers it, whatever happens in between. */
  lemma CancelledIsNeverAsked(s: State, p: nat, between: seq<Event>, rider: Id, requested: Option<int>)
    requires Inv(s) && p < |s.orders|
    ensures Inv(Step(s, Cancel(p)))
    ensures var u := Run(Step(s, Cancel(p)), between);
            var r := Submission(u.orders, rider, requested);
            p < |u.orders| && u.orders[p].cancelled && (r.Some? ==> p !in r.value.orders)
  {
    StepKeeps(s, Cancel(p));
    var t := Step(s, Cancel(p));
    StaysCancelled(t, between, p);
    SubmissionMeaning(Run(t, between).orders, rider, requested);
  }

  /** A declined payment fails its request for good: nothing is booked, now or later. */
  lemma DeclinedIsFinal(s: State, k: nat, later: seq<Event>, again: Outcome)
    requires Inv(s) && k < |s.requests| && s.requests[k].status == Pending
    ensures var t := Step(s, Verify(k, Declined));
            && t.orders == s.orders && t.direct == s.direct && |t.requests| == |s.requests|
            && (forall j :: 0 <= j < |s.requests| && j != k ==> t.requests[j] == s.requests[j])
            && Inv(t) && t.requests[k].status == Failed && t.requests[k].booked == 0
            && var u := Run(t, later);
               k < |u.requests| && u.requests[k] == t.requests[k] && Step(u, Verify(k, again)) == u
  {
    assert s.requests[k] in s.requests;
    StepKeeps(s, Verify(k, Declined));
    RunKeepsRequest(Step(s, Verify(k, Declined)), later, k);
  }

  /** While the gateway has not decided, nothing changes. */
  lemma OpenChangesNothing(s: State, k: nat)
    requires Inv(s)
    ensures Step(s, Verify(k, StillOpen)) == s
  {
  }
}
