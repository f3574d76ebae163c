/**
  Driver shifts (backend/app/jobs/slotCronJobs.js, lines 14-108;
  backend/app/controller/delivery/driverSlotController.js, lines 16-97 and 132-148). A tick first
  activates the booked slots that have begun, then completes the active ones that have ended; it
  keeps the driver's online flag and the slot his duty record names. Times are in minutes.
*/
module DriverSlots {
  import opened Common

  type Id = int

  datatype Status = Upcoming | Active | Completed | Cancelled

  datatype Slot = Slot(driver: Id, date: nat, start: nat, end: nat, status: Status)

  /** The driver's `DriverStatus` document. */
  datatype Duty = Duty(isOnline: bool, activeSlot: Option<nat>)

  /** `online` is the flag on the delivery partner itself. */
  datatype State = State(slots: seq<Slot>, online: set<Id>, duty: map<Id, Duty>)

  const DAY := 1440

  // ---------------------------------------------------------------- single steps

  predicate HasActive(s: State, d: Id) {
    exists i :: 0 <= i < |s.slots| && s.slots[i].driver == d && s.slots[i].status == Active
  }

  function With(s: State, i: nat, st: Status): State
    requires i < |s.slots|
  {
    s.(slots := s.slots[i := s.slots[i].(status := st)])
  }

  function GoOnline(s: State, d: Id, i: nat): State {
    s.(online := s.online + {d}, duty := s.duty[d := Duty(true, Some(i))])
  }

  /** One round of the activation loop. */
  function Activate(s: State, i: nat): State
    requires i < |s.slots|
  {
    GoOnline(With(s, i, Active), s.slots[i].driver, i)
  }

  /** One round of the completion loop. */
  function Complete(s: State, i: nat): State
    requires i < |s.slots|
  {
    var d := s.slots[i].driver;
    var t := With(s, i, Completed);
    if HasActive(t, d) then t
    else t.(online := t.online - {d}, duty := if d in t.duty then t.duty[d := Duty(false, None)] else t.duty)
  }

  /** The three clauses of the overlap query. */
  predicate OverlapQuery(slot: Slot, start: nat, end: nat) {
    || (start <= slot.start < end)
    || (start < slot.end <= end)
    || (slot.start <= start && end <= slot.end)
  }

  predicate Live(slot: Slot) {
    slot.status == Upcoming || slot.status == Active
  }

  predicate Overlapping(s: State, d: Id, date: nat, start: nat, end: nat) {
    exists i :: 0 <= i < |s.slots| && s.slots[i].driver == d && s.slots[i].date == date
      && Live(s.slots[i]) && OverlapQuery(s.slots[i], start, end)
  }

  function StartTime(date: nat, from: nat): nat {
    date * DAY + from
  }

  /** A slot that would end at or before its start ends on the next day. */
  function EndTime(date: nat, from: nat, until: nat): nat {
    if until <= from then date * DAY + until + DAY else date * DAY + until
  }

  /** A slot begins on its date at `from`, and ends the first time after that at which the clock shows
      `until`: on the same day if that is still to come, otherwise on the next. */
  lemma SlotTimes(date: nat, from: nat, until: nat)
    requires from < 1440 && until < 1440
    ensures StartTime(date, from) / 1440 == date && StartTime(date, from) % 1440 == from
    ensures StartTime(date, from) < EndTime(date, from, until) <= StartTime(date, from) + 1440
    ensures EndTime(date, from, until) % 1440 == until
    ensures from < until ==> EndTime(date, from, until) / 1440 == date
  {
  }

  /** `bookSlot`, for a known driver and an active slot master. */
  function Book(s: State, d: Id, date: nat, from: nat, until: nat, now: nat): State {
    var start, end := StartTime(date, from), EndTime(date, from, until);
    if Overlapping(s, d, date, start, end) then s
    else if start <= now < end then
      GoOnline(s.(slots := s.slots + [Slot(d, date, start, end, Active)]), d, |s.slots|)
    else s.(slots := s.slots + [Slot(d, date, start, end, Upcoming)])
  }

  function Cancel(s: State, d: Id, i: nat): State {
    if i < |s.slots| && s.slots[i].driver == d && s.slots[i].status == Upcoming then With(s, i, Cancelled) else s
  }

  // ---------------------------------------------------------------- online means on an active slot

  datatype Event =
    | Activation(slot: nat)
    | Completion(slot: nat)
    | Booking(driver: Id, date: nat, from: nat, until: nat, now: nat)
    | Cancellation(driver: Id, slot: nat)

  function Step(s: State, e: Event): State {
    match e
    case Activation(i) => if i < |s.slots| then Activate(s, i) else s
    case Completion(i) => if i < |s.slots| then Complete(s, i) else s
    case Booking(d, date, from, until, now) => Book(s, d, date, from, until, now)
    case Cancellation(d, i) => Cancel(s, d, i)
  }

  function Run(s: State, es: seq<Event>): State
    decreases |es|
  {
    if es == [] then s else Run(Step(s, es[0]), es[1..])
  }

  /** A run takes its events one after the other. */
  lemma {:induction false} RunOn(s: State, es: seq<Event>, e: Event)
    ensures Run(s, es + [e]) == Step(Run(s, es), e)
    decreases |es|
  {
    if es == [] {
      assert ([] + [e])[1..] == [];
      assert Run(s, [] + [e]) == Run(Step(s, e), []);
    } else {
      RunOn(Step(s, es[0]), es[1..], e);
      assert (es + [e])[0] == es[0] && (es + [e])[1..] == es[1..] + [e];
    }
  }

  /** The flag, the duty record and the slots tell the same story about every driver. */
  ghost predicate OnlineIffActive(s: State) {
    forall d: Id ::
      && (d in s.online <==> HasActive(s, d))
      && (d in s.online ==> d in s.duty)
      && (d in s.duty ==> (s.duty[d].isOnline <==> d in s.online))
      && (d in s.duty && d !in s.online ==> s.duty[d].activeSlot == None)
  }

  lemma ActiveAfterUpdate(s: State, i: nat, slot: Slot, d: Id)
    requires i < |s.slots|
    requires (d != s.slots[i].driver && d != slot.driver) || (s.slots[i].status != Active && slot.status != Active)
    ensures HasActive(s.(slots := s.slots[i := slot]), d) == HasActive(s, d)
  {
    var t := s.(slots := s.slots[i := slot]);
    if HasActive(s, d) {
      var j :| 0 <= j < |s.slots| && s.slots[j].driver == d && s.slots[j].status == Active;
      assert t.slots[j] == s.slots[j];
    }
    if HasActive(t, d) {
      var j :| 0 <= j < |t.slots| && t.slots[j].driver == d && t.slots[j].status == Active;
      assert t.slots[j] == s.slots[j];
    }
  }

  lemma ActiveAfterAppend(s: State, slot: Slot, d: Id)
    ensures HasActive(s.(slots := s.slots + [slot]), d)
         == (HasActive(s, d) || (slot.driver == d && slot.status == Active))
  {
    var t := s.(slots := s.slots + [slot]);
    if HasActive(s, d) {
      var j :| 0 <= j < |s.slots| && s.slots[j].driver == d && s.slots[j].status == Active;
      assert t.slots[j] == s.slots[j];
    }
    if slot.driver == d && slot.status == Active {
      assert t.slots[|s.slots|] == slot;
    }
  }

  lemma StepKeepsOnlineIffActive(s: State, e: Event)
    requires OnlineIffActive(s)
    ensures OnlineIffActive(Step(s, e))
  {
    var t := Step(s, e);
    forall d: Id
      ensures d in t.online <==> HasActive(t, d)
      ensures d in t.online ==> d in t.duty
      ensures d in t.duty ==> (t.duty[d].isOnline <==> d in t.online)
      ensures d in t.duty && d !in t.online ==> t.duty[d].activeSlot == None
    {
      match e
      case Activation(i) =>
        if i < |s.slots| {
          if d == s.slots[i].driver {
            assert t.slots[i].status == Active && t.slots[i].driver == d;
          } else {
            ActiveAfterUpdate(s, i, s.slots[i].(status := Active), d);
          }
        }
      case Completion(i) =>
        if i < |s.slots| {
          assert HasActive(t, d) == HasActive(With(s, i, Completed), d);
          if d != s.slots[i].driver {
            ActiveAfterUpdate(s, i, s.slots[i].(status := Completed), d);
          } else if HasActive(t, d) {
            var j :| 0 <= j < |t.slots| && t.slots[j].driver == d && t.slots[j].status == Active;
            assert s.slots[j] == t.slots[j];
          }
        }
      case Booking(driver, date, from, until, now) =>
        if t != s {
          ActiveAfterAppend(s, t.slots[|s.slots|], d);
        }
      case Cancellation(driver, i) =>
        if t != s {
          ActiveAfterUpdate(s, i, s.slots[i].(status := Cancelled), d);
        }
    }
  }

  /** After every slot processed, on every run of ticks, bookings and cancellations in any order
      and interleaving, a driver is online exactly when one of the driver's slots is active. */
  lemma {:induction false} RunsKeepOnlineIffActive(s: State, es: seq<Event>)
    requires OnlineIffActive(s)
    ensures OnlineIffActive(Run(s, es))
    decreases |es|
  {
    if es != [] {
      StepKeepsOnlineIffActive(s, es[0]);
      RunsKeepOnlineIffActive(Step(s, es[0]), es[1..]);
    }
  }

  // ---------------------------------------------------------------- whole ticks

  predicate InRange(s: State, ids: seq<nat>) {
    forall k :: 0 <= k < |ids| ==> ids[k] < |s.slots|
  }

  predicate Distinct(ids: seq<nat>) {
    forall j, k :: 0 <= j < k < |ids| ==> ids[j] != ids[k]
  }

  function ActivateAll(s: State, ids: seq<nat>): (t: State)
    requires InRange(s, ids)
    ensures |t.slots| == |s.slots|
    decreases |ids|
  {
    if ids == [] then s else ActivateAll(Activate(s, ids[0]), ids[1..])
  }

  function CompleteAll(s: State, ids: seq<nat>): (t: State)
    requires InRange(s, ids)
    ensures |t.slots| == |s.slots|
    decreases |ids|
  {
    if ids == [] then s else CompleteAll(Complete(s, ids[0]), ids[1..])
  }

  predicate Due(slot: Slot, now: nat) {
    slot.status == Upcoming && slot.start <= now
  }

  predicate Expired(slot: Slot, now: nat) {
    slot.status == Active && slot.end <= now
  }

  /** `ids` lists what the activation query finds, in any order. */
  predicate FindsDue(s: State, now: nat, ids: seq<nat>) {
    && InRange(s, ids) && Distinct(ids)
    && forall i: nat :: i < |s.slots| ==> (i in ids <==> Due(s.slots[i], now))
  }

  predicate FindsExpired(s: State, now: nat, ids: seq<nat>) {
    && InRange(s, ids) && Distinct(ids)
    && forall i: nat :: i < |s.slots| ==> (i in ids <==> Expired(s.slots[i], now))
  }

  /** A tick that nothing interrupts: the two queries read the clock at `now` and `later`. */
  predicate IsTick(s: State, now: nat, activated: seq<nat>, later: nat, completed: seq<nat>) {
    now <= later && FindsDue(s, now, activated) && FindsExpired(ActivateAll(s, activated), later, completed)
  }

  lemma {:induction false} ActivatedSlots(s: State, ids: seq<nat>, i: nat)
    requires InRange(s, ids) && i < |s.slots|
    ensures ActivateAll(s, ids).slots[i] == if i in ids then s.slots[i].(status := Active) else s.slots[i]
    decreases |ids|
  {
    if ids != [] {
      assert i in ids <==> i == ids[0] || i in ids[1..];
      ActivatedSlots(Activate(s, ids[0]), ids[1..], i);
    }
  }

  lemma {:induction false} CompletedSlots(s: State, ids: seq<nat>, i: nat)
    requires InRange(s, ids) && i < |s.slots|
    ensures CompleteAll(s, ids).slots[i] == if i in ids then s.slots[i].(status := Completed) else s.slots[i]
    decreases |ids|
  {
    if ids != [] {
      assert i in ids <==> i == ids[0] || i in ids[1..];
      CompletedSlots(Complete(s, ids[0]), ids[1..], i);
    }
  }

  /** A tick slot by slot: what is booked and has begun becomes active, what is active, just begun ones
      included, and has ended becomes completed, and nothing else changes. */
  lemma TickEffect(s: State, now: nat, activated: seq<nat>, later: nat, completed: seq<nat>)
    requires IsTick(s, now, activated, later, completed)
    ensures var t := CompleteAll(ActivateAll(s, activated), completed);
            && |t.slots| == |s.slots|
            && forall i :: 0 <= i < |s.slots| ==>
                 var was := s.slots[i];
                 var begun := was.status == Active || (was.status == Upcoming && was.start <= now);
                 t.slots[i] == was.(status := if begun && was.end <= later then Completed else if begun then Active else was.status)
  {
    var u := ActivateAll(s, activated);
    forall i: nat | i < |s.slots|
      ensures u.slots[i] == if Due(s.slots[i], now) then s.slots[i].(status := Active) else s.slots[i]
      ensures CompleteAll(u, completed).slots[i] == if Expired(u.slots[i], later) then u.slots[i].(status := Completed) else u.slots[i]
    {
      ActivatedSlots(s, activated, i);
      CompletedSlots(u, completed, i);
    }
  }

  /** While a driver keeps an active slot, completing others leaves the driver alone. */
  lemma {:induction false} CompletionsSpare(s: State, ids: seq<nat>, i: nat)
    requires InRange(s, ids) && i < |s.slots| && i !in ids && s.slots[i].status == Active
    ensures var d, t := s.slots[i].driver, CompleteAll(s, ids);
            && t.slots[i] == s.slots[i]
            && (d in t.online <==> d in s.online)
            && (d in t.duty <==> d in s.duty) && (d in s.duty ==> t.duty[d] == s.duty[d])
    decreases |ids|
  {
    if ids != [] {
      var t := With(s, ids[0], Completed);
      assert t.slots[i] == s.slots[i];
      assert i !in ids[1..];
      CompletionsSpare(Complete(s, ids[0]), ids[1..], i);
    }
  }

  /**
    Back-to-back slots never take a driver offline: a driver who holds an active slot at the end
    of a tick is online after every single completion of it, so none of them sent the driver offline.
  */
  lemma NeverDroppedOffline(s: State, now: nat, activated: seq<nat>, later: nat, completed: seq<nat>, d: Id, j: nat)
    requires OnlineIffActive(s) && IsTick(s, now, activated, later, completed) && j <= |completed|
    requires HasActive(CompleteAll(ActivateAll(s, activated), completed), d)
    ensures InRange(ActivateAll(s, activated), completed[..j])
    ensures d in CompleteAll(ActivateAll(s, activated), completed[..j]).online
  {
    var t := ActivateAll(s, activated);
    var u := CompleteAll(t, completed);
    var i :| 0 <= i < |u.slots| && u.slots[i].driver == d && u.slots[i].status == Active;
    CompletedSlots(t, completed, i);
    assert i !in completed;
    assert i !in completed[..j];
    ActivationsKeepOnline(s, activated);
    assert HasActive(t, d);
    CompletionsSpare(t, completed[..j], i);
  }

  lemma {:induction false} ActivationsKeepOnline(s: State, ids: seq<nat>)
    requires OnlineIffActive(s) && InRange(s, ids)
    ensures OnlineIffActive(ActivateAll(s, ids)) && s.online <= ActivateAll(s, ids).online
    decreases |ids|
  {
    if ids != [] {
      StepKeepsOnlineIffActive(s, Activation(ids[0]));
      ActivationsKeepOnline(Activate(s, ids[0]), ids[1..]);
    }
  }

  lemma {:induction false} CompletionsKeepOnline(s: State, ids: seq<nat>)
    requires OnlineIffActive(s) && InRange(s, ids)
    ensures OnlineIffActive(CompleteAll(s, ids))
    decreases |ids|
  {
    if ids != [] {
      StepKeepsOnlineIffActive(s, Completion(ids[0]));
      CompletionsKeepOnline(Complete(s, ids[0]), ids[1..]);
    }
  }

  // ---------------------------------------------------------------- bookings

  /** The three clauses together say exactly that the two intervals meet. */
  lemma OverlapQueryIsExact(slot: Slot, start: nat, end: nat)
    requires slot.start < slot.end && start < end
    ensures OverlapQuery(slot, start, end) <==> slot.start < end && start < slot.end
  {
  }

  predicate SameBooking(a: Slot, b: Slot) {
    a.driver == b.driver && a.date == b.date
  }

  /** Every slot is an interval, and the live slots a driver has booked for one date never overlap. */
  predicate NoOverlap(s: State) {
    && (forall i :: 0 <= i < |s.slots| ==> s.slots[i].start < s.slots[i].end)
    && (forall i, j :: 0 <= i < j < |s.slots| && SameBooking(s.slots[i], s.slots[j]) && Live(s.slots[i]) && Live(s.slots[j])
          ==> s.slots[i].end <= s.slots[j].start || s.slots[j].end <= s.slots[i].start)
  }

  /** The query finds a slot exactly if a live one of the driver on that date meets the interval. */
  lemma OverlappingIff(s: State, d: Id, date: nat, start: nat, end: nat)
    requires NoOverlap(s) && start < end
    ensures Overlapping(s, d, date, start, end) <==>
            exists i :: 0 <= i < |s.slots| && s.slots[i].driver == d && s.slots[i].date == date && Live(s.slots[i])
              && s.slots[i].start < end && start < s.slots[i].end
  {
    forall i | 0 <= i < |s.slots|
      ensures OverlapQuery(s.slots[i], start, end) <==> s.slots[i].start < end && start < s.slots[i].end
    {
      OverlapQueryIsExact(s.slots[i], start, end);
    }
  }

  lemma BookKeepsNoOverlap(s: State, d: Id, date: nat, from: nat, until: nat, now: nat)
    requires NoOverlap(s) && from < DAY && until < DAY
    ensures NoOverlap(Book(s, d, date, from, until, now))
    ensures Book(s, d, date, from, until, now) == s <==>
            exists i :: 0 <= i < |s.slots| && s.slots[i].driver == d && s.slots[i].date == date && Live(s.slots[i])
              && s.slots[i].start < EndTime(date, from, until) && StartTime(date, from) < s.slots[i].end
  {
    var t := Book(s, d, date, from, until, now);
    OverlappingIff(s, d, date, StartTime(date, from), EndTime(date, from, until));
    if !Overlapping(s, d, date, StartTime(date, from), EndTime(date, from, until)) {
      assert t.slots == s.slots + [t.slots[|s.slots|]];
    }
  }

  // ---------------------------------------------------------------- the slot on the duty record

  /** A tick, or a request between two ticks. */
  datatype Round =
    | Tick(now: nat, activated: seq<nat>, later: nat, completed: seq<nat>)
    | Book(driver: Id, date: nat, from: nat, until: nat, now: nat)
    | Cancel(driver: Id, slot: nat)

  predicate Possible(s: State, last: nat, r: Round) {
    match r
    case Tick(now, activated, later, completed) => last <= now && IsTick(s, now, activated, later, completed)
    case Book(_, _, from, until, now) => last <= now && from < DAY && until < DAY
    case Cancel(_, _) => true
  }

  function Play(s: State, last: nat, r: Round): State
    requires Possible(s, last, r)
  {
    match r
    case Tick(_, activated, _, completed) => CompleteAll(ActivateAll(s, activated), completed)
    case Book(d, date, from, until, now) => Step(s, Booking(d, date, from, until, now))
    case Cancel(d, i) => Step(s, Cancellation(d, i))
  }

  /** Ticks, bookings and cancellations keep every driver's live slots of one date apart. */
  lemma RoundKeepsNoOverlap(s: State, last: nat, r: Round)
    requires NoOverlap(s) && Possible(s, last, r)
    ensures NoOverlap(Play(s, last, r))
  {
    match r
    case Tick(now, activated, later, completed) =>
      TickEffect(s, now, activated, later, completed);
    case Book(d, date, from, until, now) =>
      BookKeepsNoOverlap(s, d, date, from, until, now);
    case Cancel(d, i) =>
  }

  /** Of two live slots of a driver the one that starts later does not end sooner. */
  predicate EndsInOrder(s: State) {
    forall i, j ::
      (0 <= i < |s.slots| && 0 <= j < |s.slots| && s.slots[i].driver == s.slots[j].driver
       && Live(s.slots[i]) && Live(s.slots[j]) && s.slots[i].start < s.slots[j].start)
      ==> s.slots[i].end <= s.slots[j].end
  }

  predicate OneEach(s: State, ids: seq<nat>)
    requires InRange(s, ids)
  {
    forall j, k :: 0 <= j < k < |ids| ==> s.slots[ids[j]].driver != s.slots[ids[k]].driver
  }

  /** Slots are booked before they begin, at most one slot of a driver begins in one tick, and ends
      are in the order of the starts. */
  predicate Tidy(s: State, r: Round) {
    match r
    case Tick(_, activated, _, _) => EndsInOrder(s) && InRange(s, activated) && OneEach(s, activated)
    case Book(_, date, from, _, now) => now < StartTime(date, from)
    case Cancel(_, _) => true
  }

  /** Slot `j` is what driver `d`'s record should name: active, and ending last. */
  predicate EndsLast(s: State, d: Id, j: nat) {
    && j < |s.slots| && s.slots[j].driver == d && s.slots[j].status == Active
    && forall i :: 0 <= i < |s.slots| && s.slots[i].driver == d && s.slots[i].status == Active ==> s.slots[i].end <= s.slots[j].end
  }

  ghost predicate Named(s: State, last: nat) {
    && OnlineIffActive(s)
    && (forall i :: 0 <= i < |s.slots| && s.slots[i].status == Upcoming ==> last < s.slots[i].start)
    && (forall i :: 0 <= i < |s.slots| && s.slots[i].status == Active ==> s.slots[i].start <= last)
    && (forall d: Id :: d in s.online ==> d in s.duty && s.duty[d].activeSlot.Some? && EndsLast(s, d, s.duty[d].activeSlot.value))
  }

  lemma {:induction false} ActivatedDuty(s: State, ids: seq<nat>, d: Id)
    requires InRange(s, ids) && OneEach(s, ids)
    ensures var t := ActivateAll(s, ids);
            if exists k :: 0 <= k < |ids| && s.slots[ids[k]].driver == d then
              d in t.duty && t.duty[d].activeSlot.Some? && t.duty[d].activeSlot.value in ids
              && t.duty[d].activeSlot.value < |s.slots| && s.slots[t.duty[d].activeSlot.value].driver == d
            else (d in t.duty <==> d in s.duty) && (d in s.duty ==> t.duty[d] == s.duty[d])
    decreases |ids|
  {
    if ids != [] {
      var u := Activate(s, ids[0]);
      assert forall k :: 0 <= k < |ids| ==> u.slots[ids[k]].driver == s.slots[ids[k]].driver;
      ActivatedDuty(u, ids[1..], d);
      assert forall k :: 0 <= k < |ids| - 1 ==> ids[1..][k] == ids[k + 1];
    }
  }

  lemma ActivationNames(s: State, last: nat, now: nat, ids: seq<nat>)
    requires Named(s, last) && last <= now && FindsDue(s, now, ids) && EndsInOrder(s) && OneEach(s, ids)
    ensures Named(ActivateAll(s, ids), now)
  {
    var t := ActivateAll(s, ids);
    ActivationsKeepOnline(s, ids);
    forall i: nat | i < |s.slots| ensures t.slots[i] == if i in ids then s.slots[i].(status := Active) else s.slots[i] {
      ActivatedSlots(s, ids, i);
    }
    forall d: Id | d in t.online ensures d in t.duty && t.duty[d].activeSlot.Some? && EndsLast(t, d, t.duty[d].activeSlot.value) {
      ActivatedDuty(s, ids, d);
      if exists k :: 0 <= k < |ids| && s.slots[ids[k]].driver == d {
      } else {
        assert HasActive(t, d);
        var i :| 0 <= i < |t.slots| && t.slots[i].driver == d && t.slots[i].status == Active;
        assert i !in ids;
        assert HasActive(s, d);
      }
    }
  }

  lemma CompletionNames(s: State, last: nat, later: nat, ids: seq<nat>)
    requires Named(s, last) && FindsExpired(s, later, ids)
    ensures Named(CompleteAll(s, ids), last)
  {
    var t := CompleteAll(s, ids);
    CompletionsKeepOnline(s, ids);
    forall i: nat | i < |s.slots| ensures t.slots[i] == if i in ids then s.slots[i].(status := Completed) else s.slots[i] {
      CompletedSlots(s, ids, i);
    }
    forall d: Id | d in t.online ensures d in t.duty && t.duty[d].activeSlot.Some? && EndsLast(t, d, t.duty[d].activeSlot.value) {
      assert HasActive(t, d);
      var i :| 0 <= i < |t.slots| && t.slots[i].driver == d && t.slots[i].status == Active;
      assert i !in ids;
      assert HasActive(s, d);
      CompletionsSpare(s, ids, i);
    }
  }

  lemma RequestNames(s: State, last: nat, r: Round)
    requires Named(s, last) && Possible(s, last, r) && Tidy(s, r) && !r.Tick?
    ensures Named(Play(s, last, r), last)
  {
    var t := Play(s, last, r);
    StepKeepsOnlineIffActive(s, if r.Book? then Booking(r.driver, r.date, r.from, r.until, r.now) else Cancellation(r.driver, r.slot));
    forall d: Id | d in t.online ensures d in t.duty && t.duty[d].activeSlot.Some? && EndsLast(t, d, t.duty[d].activeSlot.value) {
      assert t.online == s.online && t.duty == s.duty;
      assert EndsLast(s, d, s.duty[d].activeSlot.value);
    }
  }

  function LastTick(last: nat, r: Round): nat {
    if r.Tick? then r.now else last
  }

  lemma RoundNames(s: State, last: nat, r: Round)
    requires Named(s, last) && Possible(s, last, r) && Tidy(s, r)
    ensures Named(Play(s, last, r), LastTick(last, r))
  {
    if r.Tick? {
      ActivationNames(s, last, r.now, r.activated);
      CompletionNames(ActivateAll(s, r.activated), r.now, r.later, r.completed);
    } else {
      RequestNames(s, last, r);
    }
  }

  /** A run of rounds, each possible when it comes and tidy. */
  ghost predicate TidyRun(s: State, last: nat, rs: seq<Round>)
    decreases |rs|
  {
    rs != [] ==>
      Possible(s, last, rs[0]) && Tidy(s, rs[0]) && TidyRun(Play(s, last, rs[0]), LastTick(last, rs[0]), rs[1..])
  }

  ghost function After(s: State, last: nat, rs: seq<Round>): (State, nat)
    requires TidyRun(s, last, rs)
    decreases |rs|
  {
    if rs == [] then (s, last) else After(Play(s, last, rs[0]), LastTick(last, rs[0]), rs[1..])
  }

  const NOBODY := State([], {}, map[])

  /**
    When slots are booked ahead of time, later starts mean later ends and at most one slot of a
    driver begins in one tick, the record of every online driver names one of the driver's active
    slots after every tick and every request.
  */
  lemma {:induction false} RecordNamesActiveSlot(s: State, last: nat, rs: seq<Round>)
    requires Named(s, last) && TidyRun(s, last, rs)
    ensures Named(After(s, last, rs).0, After(s, last, rs).1)
    decreases |rs|
  {
    if rs != [] {
      RoundNames(s, last, rs[0]);
      RecordNamesActiveSlot(Play(s, last, rs[0]), LastTick(last, rs[0]), rs[1..]);
    }
  }

  lemma NobodyIsNamed()
    ensures Named(NOBODY, 0) && NoOverlap(NOBODY)
  {
  }

  /** Live slots of one date are always in order, so only slots running past midnight can break it. */
  lemma SameDateEndsInOrder(s: State, i: nat, j: nat)
    requires NoOverlap(s) && i < |s.slots| && j < |s.slots|
    requires SameBooking(s.slots[i], s.slots[j]) && Live(s.slots[i]) && Live(s.slots[j])
    requires s.slots[i].start < s.slots[j].start
    ensures s.slots[i].end <= s.slots[j].start < s.slots[j].end
  {
    if j < i {
      assert SameBooking(s.slots[j], s.slots[i]);
    }
  }

  // ---------------------------------------------------------------- when a record goes stale

  /** The record of an online driver names a slot that is over. */
  predicate Stale(s: State, d: Id) {
    && d in s.online && d in s.duty && s.duty[d].activeSlot.Some?
    && s.duty[d].activeSlot.value < |s.slots| && s.slots[s.duty[d].activeSlot.value].status == Completed
  }

  predicate ActiveFor(s: State, d: Id, i: nat) {
    i < |s.slots| && s.slots[i].driver == d && s.slots[i].status == Active
  }

  /** The completions of a tick leave a driver's record stale exactly when they end the slot it
      names but not every active slot of the driver. */
  lemma StaleIff(s: State, ids: seq<nat>, d: Id, j: nat)
    requires OnlineIffActive(s) && InRange(s, ids)
    requires ActiveFor(s, d, j) && d in s.duty && s.duty[d].activeSlot == Some(j)
    ensures Stale(CompleteAll(s, ids), d) <==> j in ids && exists i: nat :: ActiveFor(s, d, i) && i !in ids
  {
    var t := CompleteAll(s, ids);
    CompletionsKeepOnline(s, ids);
    forall i: nat | i < |s.slots| ensures t.slots[i] == if i in ids then s.slots[i].(status := Completed) else s.slots[i] {
      CompletedSlots(s, ids, i);
    }
    assert HasActive(s, d);
    if i: nat :| ActiveFor(s, d, i) && i !in ids {
      CompletionsSpare(s, ids, i);
    } else {
      assert !HasActive(t, d);
    }
  }

  lemma OneActivation(s: State, i: nat, ids: seq<nat>)
    requires i < |s.slots| && ids == [i]
    ensures ActivateAll(s, ids) == Activate(s, i)
  {
    assert ids[1..] == [];
  }

  lemma ActiveHere(s: State, i: nat, d: Id)
    requires ActiveFor(s, d, i)
    ensures HasActive(s, d)
  {
  }

  lemma ActivatedInTurn(s: State, a: nat, b: nat, ids: seq<nat>)
    requires a < |s.slots| && b < |s.slots| && ids == [a, b]
    ensures ActivateAll(s, ids) == Activate(Activate(s, a), b)
  {
    assert ids[1..] == [b];
    OneActivation(Activate(s, a), b, [b]);
  }

  lemma NoneActiveIsNamed(s: State)
    requires s.online == {} && s.duty == map[]
    requires forall i :: 0 <= i < |s.slots| ==> s.slots[i].status == Upcoming && s.slots[i].start > 0
    ensures Named(s, 0)
  {
  }

  lemma BothFoundDue(s: State, a: Slot, b: Slot, now: nat, ids: seq<nat>, done: seq<nat>)
    requires s.slots == [a, b] && a.status == b.status == Upcoming
    requires a.start <= now && a.end <= now && b.start <= now < b.end && ids == [1, 0] && done == [0]
    ensures IsTick(s, now, ids, now, done)
    ensures ActivateAll(s, ids).slots == [a.(status := Active), b.(status := Active)]
  {
    ActivatedInTurn(s, 1, 0, ids);
    assert ActivateAll(s, ids).slots == [a.(status := Active), b.(status := Active)];
  }

  /** Two slots of a driver, one after the other, begin in one tick that also finds the first one
      over, and the query lists the later one first. */
  lemma TwoActivationsLeaveStale(s: State, a: Slot, b: Slot, now: nat, ids: seq<nat>, done: seq<nat>)
    requires s == State([a, b], {}, map[]) && a.driver == b.driver && a.status == b.status == Upcoming
    requires 0 < a.start < a.end <= b.start <= now < b.end && ids == [1, 0] && done == [0]
    ensures Named(s, 0) && EndsInOrder(s) && IsTick(s, now, ids, now, done)
    ensures Stale(CompleteAll(ActivateAll(s, ids), done), a.driver)
  {
    NoneActiveIsNamed(s);
    BothFoundDue(s, a, b, now, ids, done);
    var t := ActivateAll(s, ids);
    ActivationsKeepOnline(s, ids);
    assert t.duty[a.driver].activeSlot == Some(0) by {
      ActivatedInTurn(s, 1, 0, ids);
    }
    assert ActiveFor(t, a.driver, 0) && ActiveFor(t, a.driver, 1) && 1 !in done;
    StaleIff(t, done, a.driver, 0);
  }

  lemma BookedAtOnce(s: State, d: Id, date: nat, from: nat, until: nat, now: nat)
    requires !Overlapping(s, d, date, StartTime(date, from), EndTime(date, from, until))
    requires StartTime(date, from) <= now < EndTime(date, from, until)
    ensures var t := Step(s, Booking(d, date, from, until, now));
            && t.slots == s.slots + [Slot(d, date, StartTime(date, from), EndTime(date, from, until), Active)]
            && t.duty == s.duty[d := Duty(true, Some(|s.slots|))]
  {
  }

  lemma OneActiveIsNamed(s: State, slot: Slot)
    requires slot.status == Active && s.slots == [slot]
    requires s.online == {slot.driver} && s.duty == map[slot.driver := Duty(true, Some(0))]
    ensures Named(s, slot.start)
  {
    ActiveHere(s, 0, slot.driver);
  }

  lemma ShorterOneLeavesStale(t: State, a: Slot, b: Slot, ids: seq<nat>)
    requires OnlineIffActive(t) && t.slots == [a, b] && ids == [1]
    requires a.driver == b.driver && a.status == b.status == Active && b.end < a.end
    requires b.driver in t.duty && t.duty[b.driver].activeSlot == Some(1)
    ensures b.start < a.start ==> EndsInOrder(t)
    ensures IsTick(t, b.end, [], b.end, ids) && Stale(CompleteAll(t, ids), b.driver)
  {
    assert ActivateAll(t, []) == t;
    assert ActiveFor(t, b.driver, 1) && ActiveFor(t, b.driver, 0) && 0 !in ids;
    StaleIff(t, ids, b.driver, 1);
  }

  lemma OneOfTwoActivated(s: State, a: Slot, b: Slot, ids: seq<nat>)
    requires s.slots == [a, b] && a.status == Active && b.status == Upcoming
    requires a.start < b.start < b.end < a.end && ids == [1]
    ensures IsTick(s, b.start, ids, b.start, []) && OneEach(s, ids)
    ensures ActivateAll(s, ids) == Activate(s, 1) && ActivateAll(s, ids).slots == [a, b.(status := Active)]
  {
    OneActivation(s, 1, ids);
    assert Activate(s, 1).slots == [a, b.(status := Active)];
  }

  lemma OneActiveOneUpcoming(s: State, a: Slot, b: Slot)
    requires a.status == Active && b.status == Upcoming && a.driver == b.driver && a.start < b.start && s.slots == [a, b]
    requires s.online == {a.driver} && s.duty == map[a.driver := Duty(true, Some(0))]
    ensures Named(s, a.start)
  {
    ActiveHere(s, 0, a.driver);
  }

  /** A slot begins and ends within one that runs past midnight. */
  lemma NestedSlotLeavesStale(s: State, a: Slot, b: Slot, ids: seq<nat>)
    requires s == State([a, b], {a.driver}, map[a.driver := Duty(true, Some(0))])
    requires a.driver == b.driver && a.status == Active && b.status == Upcoming
    requires a.start < b.start < b.end < a.end && ids == [1]
    ensures Named(s, a.start) && IsTick(s, b.start, ids, b.start, []) && OneEach(s, ids)
    ensures var t := ActivateAll(s, ids);
            IsTick(t, b.end, [], b.end, ids) && Stale(CompleteAll(t, ids), a.driver)
  {
    OneActiveOneUpcoming(s, a, b);
    OneOfTwoActivated(s, a, b, ids);
    ActivationsKeepOnline(s, ids);
    ShorterOneLeavesStale(ActivateAll(s, ids), a, b.(status := Active), ids);
  }

  /** A slot of the day before is booked while it runs and takes over the record. */
  lemma ImmediateBookingLeavesStale(s: State, ids: seq<nat>, t: State)
    requires s == State([Slot(1, 1, 1440, 1620, Active)], {1}, map[1 := Duty(true, Some(0))])
    requires ids == [1] && t == Step(s, Booking(1, 0, 1380, 120, 1500))
    ensures Named(s, 1440) && EndsInOrder(t) && IsTick(t, 1560, [], 1560, ids) && Stale(CompleteAll(t, ids), 1)
  {
    OneActiveIsNamed(s, s.slots[0]);
    StepKeepsOnlineIffActive(s, Booking(1, 0, 1380, 120, 1500));
    BookedAtOnce(s, 1, 0, 1380, 120, 1500);
    ShorterOneLeavesStale(t, s.slots[0], Slot(1, 0, 1380, 1560, Active), ids);
  }
}
