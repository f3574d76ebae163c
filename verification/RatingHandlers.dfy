/**
  `submitDeliveryRating` and `getMyRating` on the stored ratings and delivery partners
  (backend/app/controller/deliveryRatingController.js, lines 11-102).

  An order is rated once, by the customer it belongs to, after it was delivered, with one to five
  stars. The partner's average is updated from the stored one and rounded to two digits, so it
  drifts away from the mean of the records, within the bound that `DeliveryRating` proves. A
  submission runs on its own here.
*/
module RatingHandlers {
  import opened Common
  import opened DeliveryRating

  /** What the handler reads of the order it finds for the customer. */
  datatype Order = Order(id: Id, delivered: bool, rider: Option<Id>)

  datatype Answer = Created | BadRequest | NotFound

  /** The stars a partner has been given, oldest first. */
  function StarsOf(records: seq<Rating>, d: Id): seq<int> {
    if records == [] then []
    else
      var last := records[|records| - 1];
      StarsOf(records[..|records| - 1], d) + if last.rider == d then [last.stars] else []
  }

  predicate Rated(records: seq<Rating>, customer: Id, order: Id) {
    exists i :: 0 <= i < |records| && records[i].customer == customer && records[i].order == order
  }

  /** The partner's count is the number of the partner's records, and the stored average is the
      last of a history of roundings over them. */
  ghost predicate Accounted(records: seq<Rating>, d: Id, rider: Rider, averages: seq<int>) {
    History(StarsOf(records, d), averages) && rider == Rider(averages[|averages| - 1], |StarsOf(records, d)|)
  }

  predicate RatedOnce(records: seq<Rating>) {
    forall i, j :: 0 <= i < j < |records| ==> records[i].customer != records[j].customer || records[i].order != records[j].order
  }

  lemma StarsAfter(records: seq<Rating>, rating: Rating, d: Id)
    ensures StarsOf(records + [rating], d) == StarsOf(records, d) + if rating.rider == d then [rating.stars] else []
  {
    assert (records + [rating])[..|records|] == records;
  }

  lemma AccountedNext(records: seq<Rating>, rating: Rating, before: Rider, averages: seq<int>, average: int)
    requires Accounted(records, rating.rider, before, averages) && Stars(rating.stars)
    requires Updates(before.average, before.total, rating.stars, average)
    ensures Accounted(records + [rating], rating.rider, Rider(average, before.total + 1), averages + [average])
  {
    StarsAfter(records, rating, rating.rider);
  }

  lemma AccountedElsewhere(records: seq<Rating>, rating: Rating, d: Id, rider: Rider, averages: seq<int>)
    requires Accounted(records, d, rider, averages) && d != rating.rider
    ensures Accounted(records + [rating], d, rider, averages)
  {
    StarsAfter(records, rating, d);
  }

  class RatingDesk {
    var records: seq<Rating>
    var riders: map<Id, Rider>
    ghost var averages: map<Id, seq<int>>   // the averages each partner has had, oldest first

    ghost predicate Valid()
      reads this
    {
      && (forall d :: d in riders ==> d in averages && Accounted(records, d, riders[d], averages[d]))
      && RatedOnce(records)
    }

    constructor (partners: set<Id>)
      ensures Valid() && records == [] && riders.Keys == partners
    {
      records := [];
      riders := map d | d in partners :: Rider(0, 0);
      averages := map d | d in partners :: [0];
    }

    /** Rounds n/d to the nearest hundredth, either way on a tie. */
    method ToFixed(n: int, d: nat) returns (x: int)
      requires d > 0 && 0 <= n <= 500 * d
      ensures IsNearest(x, n, d)
    {
      ghost var up := (2 * n + d) / (2 * d);
      assert IsNearest(up, n, d) by {
        var rem := (2 * n + d) % (2 * d);
        assert 2 * n + d == (2 * d) * up + rem;
        assert (2 * d) * up == 2 * (d * up);
      }
      NearestWithin(up, n, d, 0, 500);
      x :| 0 <= x <= 500 && IsNearest(x, n, d);
    }

    method FindExisting(customer: Id, order: Id) returns (found: bool)
      ensures found == Rated(records, customer, order)
    {
      for i := 0 to |records|
        invariant forall j :: 0 <= j < i ==> records[j].customer != customer || records[j].order != order
      {
        if records[i].customer == customer && records[i].order == order {
          return true;
        }
      }
      return false;
    }

    /** Creates the record, then folds it into the partner's average. */
    method RecordRating(rating: Rating)
      requires Valid() && Stars(rating.stars) && !Rated(records, rating.customer, rating.order)
      modifies this
      ensures Valid() && records == old(records) + [rating]
      ensures riders.Keys == old(riders).Keys
      ensures forall d :: d in riders && d != rating.rider ==> riders[d] == old(riders)[d]
      ensures rating.rider in riders ==>
                var before, after := old(riders)[rating.rider], riders[rating.rider];
                after.total == before.total + 1 && Updates(before.average, before.total, rating.stars, after.average)
    {
      ghost var past := records;
      ghost var before := riders;
      records := records + [rating];
      assert RatedOnce(records);
      var d := rating.rider;
      if d in riders {
        var rider := riders[d];
        DriftBound(StarsOf(past, d), averages[d]);
        if rider.total > 0 {
          Scale(rider.total, 100, rider.average, 500);
        }
        var newTotal := rider.average * rider.total + 100 * rating.stars;
        var newCount := rider.total + 1;
        var average := ToFixed(newTotal, newCount);
        AccountedNext(past, rating, rider, averages[d], average);
        riders := riders[d := Rider(average, newCount)];
        averages := averages[d := averages[d] + [average]];
      }
      forall e | e in riders && e != d ensures Accounted(records, e, riders[e], averages[e]) {
        AccountedElsewhere(past, rating, e, before[e], averages[e]);
      }
    }

    method SubmitDeliveryRating(customer: Id, order: Option<Order>, stars: int) returns (answer: Answer)
      requires Valid()
      modifies this
      ensures Valid()
      ensures answer == if stars < 1 || stars > 5 then BadRequest
                        else if order.None? then NotFound
                        else if !order.value.delivered || order.value.rider.None? then BadRequest
                        else if exists i :: 0 <= i < |old(records)| && old(records)[i].customer == customer
                                            && old(records)[i].order == order.value.id then BadRequest
                        else Created
      ensures answer != Created ==> records == old(records) && riders == old(riders)
      ensures answer == Created ==>
                && records == old(records) + [Rating(customer, order.value.id, order.value.rider.value, stars)]
                && riders.Keys == old(riders).Keys
                && (forall d :: d in riders && d != order.value.rider.value ==> riders[d] == old(riders)[d])
                && (order.value.rider.value in riders ==>
                      var before, after := old(riders)[order.value.rider.value], riders[order.value.rider.value];
                      after.total == before.total + 1 && Updates(before.average, before.total, stars, after.average))
    {
      if !Stars(stars) {
        return BadRequest;
      }
      if order.None? {
        return NotFound;
      }
      if !order.value.delivered || order.value.rider.None? {
        return BadRequest;
      }
      var existing := FindExisting(customer, order.value.id);
      if existing {
        return BadRequest;
      }
      RecordRating(Rating(customer, order.value.id, order.value.rider.value, stars));
      return Created;
    }

    /** What the dashboard shows of a partner, and how far it can be from the truth. */
    method GetMyRating(d: Id) returns (rider: Option<Rider>)
      requires Valid()
      ensures rider.Some? <==> d in riders
      ensures rider.Some? ==>
                var n, sum := |StarsOf(records, d)|, Sum(StarsOf(records, d));
                && rider.value.total == n
                && 4 * Abs(n * rider.value.average - 100 * sum) <= n * (n + 1)
                && (n > 0 ==> 100 <= rider.value.average <= 500)
    {
      if d !in riders {
        return None;
      }
      DriftBound(StarsOf(records, d), averages[d]);
      return Some(riders[d]);
    }
  }
}
