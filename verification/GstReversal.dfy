/**
  The slice of the commission GST that a refund gives back
  (backend/app/controller/orderController.js, lines 1041-1048), in paise.

  The source multiplies the GST charged by the refunded part of the product subtotal, takes the
  smaller of that and the charge, and rounds to the nearest paisa, halves up. Amounts are whole
  paise here, so the rounding is that of a quotient of integers; nothing is assumed of how the
  charge, the subtotal and the refund compare.
*/
module GstReversal {
  /** `roundCurrency` of the quotient n/d of two amounts in paise: to the nearest, halves up. */
  function RoundedQuotient(n: nat, d: nat): nat
    requires d > 0
  {
    (2 * n + d) / (2 * d)
  }

  /** The slice of the commission GST given back: min(charged, charged * refund / subtotal), rounded. */
  function Reversal(charged: nat, subtotal: nat, refund: nat): nat {
    if charged > 0 && subtotal > 0 && refund > 0
    then RoundedQuotient(if refund < subtotal then charged * refund else charged * subtotal, subtotal)
    else 0
  }

  function ClampedMinus(a: nat, b: nat): nat {
    if a < b then 0 else a - b
  }

  lemma MulLess(a: nat, b: nat, c: nat)
    requires a <= b
    ensures a * c <= b * c
  {
  }

  /** Rounding to the nearest does not pass an integer bound. */
  lemma RoundedQuotientBound(n: nat, d: nat, k: nat)
    requires d > 0 && n <= k * d
    ensures RoundedQuotient(n, d) <= k
  {
    assert 2 * n + d < (2 * d) * (k + 1) by {
      assert (2 * d) * (k + 1) == 2 * (k * d) + 2 * d;
    }
    if RoundedQuotient(n, d) >= k + 1 {
      MulLess(k + 1, RoundedQuotient(n, d), 2 * d);
      assert false;
    }
  }

  lemma RoundedQuotientExact(k: nat, d: nat)
    requires d > 0
    ensures RoundedQuotient(k * d, d) == k
  {
    RoundedQuotientBound(k * d, d, k);
    var q := RoundedQuotient(k * d, d);
    assert 2 * (k * d) + d == (2 * d) * k + d;
    if q + 1 <= k {
      MulLess(q + 1, k, 2 * d);
      assert false;
    }
  }

  /** The reversal never exceeds the charge, and a refund of the whole subtotal reverses all of it. */
  lemma ReversalBounds(charged: nat, subtotal: nat, refund: nat)
    ensures Reversal(charged, subtotal, refund) <= charged
    ensures charged <= subtotal ==> Reversal(charged, subtotal, refund) <= refund
    ensures 0 < subtotal <= refund ==> Reversal(charged, subtotal, refund) == charged
  {
    if charged > 0 && subtotal > 0 && refund > 0 {
      if refund < subtotal {
        MulLess(refund, subtotal, charged);
        RoundedQuotientBound(charged * refund, subtotal, charged);
        if charged <= subtotal {
          MulLess(charged, subtotal, refund);
          RoundedQuotientBound(charged * refund, subtotal, refund);
        }
      } else {
        RoundedQuotientExact(charged, subtotal);
      }
    }
  }

  /** The reversal stays within every possible refund exactly when the charge does not exceed the
      product subtotal: then neither `Math.max(0, ...)` ever bites. */
  lemma ReversalWithinRefundIff(charged: nat, subtotal: nat)
    requires subtotal > 0
    ensures (forall refund: nat :: refund <= subtotal ==> Reversal(charged, subtotal, refund) <= refund) <==> charged <= subtotal
  {
    forall refund: nat {
      ReversalBounds(charged, subtotal, refund);
    }
    ReversalBounds(charged, subtotal, subtotal);
  }

  function Abs(x: int): nat {
    if x < 0 then -x else x
  }

  /** Rounding leaves at most half of the divisor, to either side. */
  lemma QuotientIsNearest(n: nat, d: nat)
    requires d > 0
    ensures 2 * Abs(d * RoundedQuotient(n, d) - n) <= d
  {
    var q := RoundedQuotient(n, d);
    var rem := (2 * n + d) % (2 * d);
    assert 2 * n + d == (2 * d) * q + rem;
    assert (2 * d) * q == 2 * (d * q);
  }

  /** A refund of part of the subtotal reverses the same part of the charge, to the nearest paisa; a
      larger one reverses the whole charge. */
  lemma ReversalIsNearest(charged: nat, subtotal: nat, refund: nat)
    requires subtotal > 0
    ensures refund < subtotal ==> 2 * Abs(subtotal * Reversal(charged, subtotal, refund) - charged * refund) <= subtotal
    ensures refund >= subtotal ==> Reversal(charged, subtotal, refund) == charged
  {
    if charged > 0 && refund > 0 {
      if refund < subtotal {
        QuotientIsNearest(charged * refund, subtotal);
      } else {
        RoundedQuotientExact(charged, subtotal);
      }
    }
  }
}
