/**
  The slot cron job (backend/app/jobs/slotCronJobs.js, lines 14-108) and the driver's booking
  endpoints (backend/app/controller/delivery/driverSlotController.js, lines 16-148) on the stored
  slots.

  A tick loads the due slots and activates them one by one, then loads the expired ones, at a
  second reading of the clock, and completes them one by one. Nothing else runs during a tick; a
  driver's record follows the last of his slots that the tick has handled.
*/
module SlotHandlers {
  import opened Common
  import opened DriverSlots

  datatype Answer = Created(isOnlineNow: bool) | Ok | BadRequest | NotFound

  class ShiftDesk {
    var slots: seq<Slot>
    var online: set<Id>
    var duty: map<Id, Duty>

    ghost function View(): State
      reads this
    {
      State(slots, online, duty)
    }

    constructor ()
      ensures View() == NOBODY
    {
      slots, online, duty := [], {}, map[];
    }

    method FindDueSlots(now: nat) returns (ids: seq<nat>)
      ensures FindsDue(View(), now, ids)
    {
      ids := [];
      for i := 0 to |slots|
        invariant InRange(View(), ids) && Distinct(ids)
        invariant forall k :: 0 <= k < |ids| ==> ids[k] < i
        invariant forall k: nat :: k < i ==> (k in ids <==> Due(slots[k], now))
      {
        if slots[i].status == Upcoming && slots[i].start <= now {
          ids := ids + [i];
        }
      }
    }

    method FindExpiredSlots(now: nat) returns (ids: seq<nat>)
      ensures FindsExpired(View(), now, ids)
    {
      ids := [];
      for i := 0 to |slots|
        invariant InRange(View(), ids) && Distinct(ids)
        invariant forall k :: 0 <= k < |ids| ==> ids[k] < i
        invariant forall k: nat :: k < i ==> (k in ids <==> Expired(slots[k], now))
      {
        if slots[i].status == Active && slots[i].end <= now {
          ids := ids + [i];
        }
      }
    }

    method FindOtherActive(d: Id) returns (found: bool)
      ensures found == HasActive(View(), d)
    {
      for i := 0 to |slots|
        invariant forall k :: 0 <= k < i ==> !(slots[k].driver == d && slots[k].status == Active)
      {
        if slots[i].driver == d && slots[i].status == Active {
          return true;
        }
      }
      return false;
    }

    method SetOnline(d: Id, slot: nat)
      modifies this`online, this`duty
      ensures View() == GoOnline(old(View()), d, slot)
    {
      duty := duty[d := Duty(true, Some(slot))];
      online := online + {d};
    }

    method ActivateSlot(i: nat)
      requires i < |slots|
      modifies this
      ensures View() == Step(old(View()), Activation(i))
    {
      slots := slots[i := slots[i].(status := Active)];
      SetOnline(slots[i].driver, i);
    }

    method CompleteSlot(i: nat)
      requires i < |slots|
      modifies this
      ensures View() == Step(old(View()), Completion(i))
      ensures slots == old(slots)[i := old(slots)[i].(status := Completed)]
      ensures var d := slots[i].driver;
              online == if exists k :: 0 <= k < |slots| && slots[k].driver == d && slots[k].status == Active
                        then old(online) else old(online) - {d}
    {
      var d := slots[i].driver;
      slots := slots[i := slots[i].(status := Completed)];
      var other := FindOtherActive(d);
      if other {
        return;
      }
      if d in duty {
        duty := duty[d := Duty(false, None)];
      }
      online := online - {d};
    }

    /** The cron job: activates what is due, then completes what has expired. */
    method RunTick(now: nat, later: nat) returns (activated: seq<nat>, completed: seq<nat>)
      requires now <= later
      modifies this
      ensures IsTick(old(View()), now, activated, later, completed)
      ensures View() == CompleteAll(ActivateAll(old(View()), activated), completed)
      ensures |slots| == |old(slots)|
      ensures forall i :: 0 <= i < |slots| ==>
                var was := old(slots)[i];
                var begun := was.status == Active || (was.status == Upcoming && was.start <= now);
                slots[i] == was.(status := if begun && was.end <= later then Completed else if begun then Active else was.status)
    {
      activated := FindDueSlots(now);
      for k := 0 to |activated|
        invariant |slots| == |old(slots)|
        invariant InRange(View(), activated)
        invariant ActivateAll(View(), activated[k..]) == ActivateAll(old(View()), activated)
      {
        assert activated[k..][1..] == activated[k + 1..];
        ActivateSlot(activated[k]);
      }
      completed := FindExpiredSlots(later);
      ghost var middle := View();
      for k := 0 to |completed|
        invariant |slots| == |middle.slots|
        invariant InRange(View(), completed)
        invariant CompleteAll(View(), completed[k..]) == CompleteAll(middle, completed)
      {
        assert completed[k..][1..] == completed[k + 1..];
        CompleteSlot(completed[k]);
      }
      TickEffect(old(View()), now, activated, later, completed);
    }

    method FindOverlapping(d: Id, date: nat, start: nat, end: nat) returns (found: bool)
      ensures found == Overlapping(View(), d, date, start, end)
    {
      for i := 0 to |slots|
        invariant forall k :: 0 <= k < i ==>
          !(slots[k].driver == d && slots[k].date == date && Live(slots[k]) && OverlapQuery(slots[k], start, end))
      {
        var slot := slots[i];
        if slot.driver == d && slot.date == date && Live(slot) && OverlapQuery(slot, start, end) {
          return true;
        }
      }
      return false;
    }

    method BookSlot(d: Id, date: nat, from: nat, until: nat, now: nat) returns (answer: Answer)
      requires from < DAY && until < DAY
      modifies this
      ensures View() == Step(old(View()), Booking(d, date, from, until, now))
      ensures old(NoOverlap(View())) ==> NoOverlap(View())
      ensures answer.BadRequest? <==> Overlapping(old(View()), d, date, StartTime(date, from), EndTime(date, from, until))
      ensures answer.BadRequest? ==> View() == old(View())
      ensures answer.Created? ==>
                var start := date * 1440 + from;
                var end := date * 1440 + until + (if until <= from then 1440 else 0);
                && (answer.isOnlineNow <==> start <= now < end)
                && slots == old(slots) + [Slot(d, date, start, end, if start <= now < end then Active else Upcoming)]
                && online == old(online) + (if start <= now < end then {d} else {})
                && (start <= now < end ==> d in duty && duty[d] == Duty(true, Some(|old(slots)|)))
    {
      ghost var before := View();
      var start := date * DAY + from;
      var end := date * DAY + until;
      if end <= start {
        end := end + DAY;
      }
      if NoOverlap(before) {
        BookKeepsNoOverlap(before, d, date, from, until, now);
      }
      var overlapping := FindOverlapping(d, date, start, end);
      if overlapping {
        return BadRequest;
      }
      var isOnlineNow := now >= start && now < end;
      slots := slots + [Slot(d, date, start, end, if isOnlineNow then Active else Upcoming)];
      if isOnlineNow {
        SetOnline(d, |slots| - 1);
      }
      return Created(isOnlineNow);
    }

    method CancelUpcomingSlot(d: Id, i: nat) returns (answer: Answer)
      modifies this`slots
      ensures View() == Step(old(View()), Cancellation(d, i))
      ensures answer == if i >= |old(slots)| || old(slots)[i].driver != d then NotFound
                        else if old(slots)[i].status != Upcoming then BadRequest else Ok
      ensures slots == if answer == Ok then old(slots)[i := old(slots)[i].(status := Cancelled)] else old(slots)
    {
      if i >= |slots| || slots[i].driver != d {
        return NotFound;
      }
      if slots[i].status != Upcoming {
        return BadRequest;
      }
      slots := slots[i := slots[i].(status := Cancelled)];
      return Ok;
    }
  }
}
